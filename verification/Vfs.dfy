/** Path resolution as the kernel runs it (kernel/fs/vfs.c): a scan over the path that bumps and drops
    reference-counted entries and recurses for links. */
module Vfs {
  import opened Common
  import opened PathWalk
  import opened TnodeTree

  datatype Reply = Node(id: nat, mount: nat) | Error(code: PathWalk.Error)

  /** The reply says what the pure resolver says. */
  ghost predicate Matches(nodes: Nodes, r: Reply, depth: nat, o: Outcome) {
    && depth == o.depth
    && match r
       case Node(id, mount) =>
         o.Found? && Forest(nodes) && id in nodes && ChainOf(nodes, id) == o.node && mount == o.mount
       case Error(code) => o.Failed? && code == o.code
  }

  /** Entries are created under new numbers, removed, and otherwise change only their counts. */
  ghost predicate Evolves(nodes: Nodes, next: nat, nodes': Nodes, next': nat) {
    next <= next' && Agree(nodes, nodes') && forall id :: id in nodes' ==> id in nodes || next <= id
  }

  ghost predicate Below(nodes: Nodes, next: nat) { forall id :: id in nodes ==> id < next }

  lemma EvolvesTwice(a: Nodes, n: nat, b: Nodes, n1: nat, c: Nodes, n2: nat)
    requires Below(a, n) && Evolves(a, n, b, n1) && Evolves(b, n1, c, n2)
    ensures Evolves(a, n, c, n2)
  {
    forall id | id in a && id in c ensures c[id] == a[id].(count := c[id].count) { assert id in b; }
  }

  ghost predicate OneRoot(nodes: Nodes,
          root: nat) { forall id :: id in nodes ==> (nodes[id].parent.None? <==> id == root) }

  lemma {:induction false} ChainRooted(nodes: Nodes, root: nat, id: nat)
    requires Forest(nodes) && OneRoot(nodes, root) && root in nodes && id in nodes
    ensures RootOf(ChainOf(nodes, id)) == ChainOf(nodes, root) && (ChainOf(nodes, id).Root? <==> id == root)
    decreases id
  {
    if nodes[id].parent.Some? { ChainRooted(nodes, root, nodes[id].parent.value); }
  }

  /** The counts are right for the outside holders, the root is held, and only the root has no parent. */
  ghost predicate Sound(fs: Fs, root: nat, nodes: Nodes, next: nat, outside: multiset<nat>) {
    && Counted(nodes, outside) && root in outside && Below(nodes, next) && OneRoot(nodes, root)
    && root in nodes && !fs.kind(nodes[root].inode).SymbolicLink?
  }

  lemma BumpSound(fs: Fs, root: nat, nodes: Nodes, next: nat, outside: multiset<nat>, id: nat)
    requires Sound(fs, root, nodes, next, outside) && id in nodes
    ensures Sound(fs, root, BumpNode(nodes, id), next, outside + multiset{id})
    ensures Evolves(nodes, next, BumpNode(nodes, id), next) && id in BumpNode(nodes, id)
  {
    hide Counted;
    BumpCounted(nodes, outside, id);
    assert root in outside + multiset{id};
  }

  lemma DropSound(fs: Fs, root: nat, nodes: Nodes, next: nat, outside: multiset<nat>, id: nat)
    requires Sound(fs, root, nodes, next, outside + multiset{id}) && root in outside
    ensures Sound(fs, root, DropNode(nodes, id), next, outside) && Evolves(nodes, next, DropNode(nodes, id), next)
  {
    hide Counted, DropNode, Forest;
    DropCounted(nodes, outside, id);
    HeldExists(DropNode(nodes, id), outside, root);
  }

  lemma HeldExists(nodes: Nodes, outside: multiset<nat>, id: nat)
    requires Counted(nodes, outside) && id in outside
    ensures id in nodes && Forest(nodes)
  {
  }

  lemma CreateSound(fs: Fs, root: nat, nodes: Nodes, next: nat, outside: multiset<nat>, name: string, parent: nat,
          inode: nat, mount: nat)
    requires Sound(fs, root, nodes, next, outside + multiset{parent}) && root in outside
    ensures var nodes' := CreateNode(nodes, next, name, parent, inode, mount);
            Sound(fs, root, nodes', next + 1, outside + multiset{next}) && Evolves(nodes, next, nodes', next + 1)
  {
    hide Counted, Forest, Agree;
    HeldExists(nodes, outside + multiset{parent}, parent);
    CreateCounted(nodes, outside, next, name, parent, inode, mount);
    CreateShape(root, nodes, next, name, parent, inode, mount);
    assert root in outside + multiset{next};
  }

  lemma CreateShape(root: nat, nodes: Nodes, next: nat, name: string, parent: nat, inode: nat, mount: nat)
    requires Below(nodes, next) && OneRoot(nodes, root) && root in nodes
    requires Agree(nodes, CreateNode(nodes, next, name, parent, inode, mount))
    ensures var nodes' := CreateNode(nodes, next, name, parent, inode, mount);
            && Below(nodes', next + 1) && OneRoot(nodes', root) && root in nodes' && nodes'[root] == nodes[root]
            && next !in nodes
            && Evolves(nodes, next, nodes', next + 1)
  {
    hide Agree;
  }

  /** The chains of entries that stay do not change. */
  lemma ChainStays(fs: Fs, root: nat, nodes: Nodes, next: nat, nodes': Nodes, next': nat, out: multiset<nat>,
          out': multiset<nat>, id: nat)
    requires Sound(fs, root, nodes, next, out) && Sound(fs, root, nodes', next', out')
    requires Evolves(nodes, next, nodes', next')
    requires id in nodes && id in nodes'
    ensures Forest(nodes) && Forest(nodes') && ChainOf(nodes', id) == ChainOf(nodes, id)
  {
    HeldExists(nodes, out, root);
    HeldExists(nodes', out', root);
    hide Counted, Forest;
    ChainSame(nodes, nodes', id);
  }

  /** Held entries have a chain from the root. */
  lemma HeldRooted(fs: Fs, root: nat, nodes: Nodes, next: nat, out: multiset<nat>, id: nat)
    requires Sound(fs, root, nodes, next, out) && id in nodes
    ensures Forest(nodes) && Rooted(fs, ChainOf(nodes, root), ChainOf(nodes, id))
    ensures (ChainOf(nodes, id).Root? <==> id == root)
    ensures ChainOf(nodes, id).inode == nodes[id].inode && ChainOf(nodes, id).mount == nodes[id].mount
    ensures nodes[id].parent.None? <==> id == root
    ensures id != root ==>
              && nodes[id].parent.value in nodes
              && ChainOf(nodes, id) ==
                 Entry(ChainOf(nodes, nodes[id].parent.value), nodes[id].name, nodes[id].inode, nodes[id].mount)
  {
    HeldExists(nodes, out, root);
    hide Counted;
    ChainRooted(nodes, root, id);
  }

  lemma Settle(fs: Fs, root: nat, a: Nodes, n: nat, out: multiset<nat>, b: Nodes, n': nat, out': multiset<nat>, id: nat)
    requires Sound(fs, root, a, n, out) && Sound(fs, root, b, n', out') && Evolves(a, n, b, n') && id in out'
    ensures id in b && root in a && root in b && Forest(a) && Forest(b)
    ensures ChainOf(b, root) == ChainOf(a, root) && Rooted(fs, ChainOf(b, root), ChainOf(b, id))
  {
    SoundHolds(fs, root, b, n', out', id);
    hide Counted, Evolves, Forest, ChainOf;
    ChainStays(fs, root, a, n, b, n', out, out', root);
    HeldRooted(fs, root, b, n', out', id);
  }

  // ---------------------------------------------------------------- scanning the path

  /** The scan stands behind a slash or at the start; it is over when the last component had no slash behind it. */
  ghost predicate Scanning(path: string, rest: Option<nat>) {
    match rest
    case Some(i) => i <= |path| && (i == 0 || path[i - 1] == '/')
    case None => !EndsInSlash(path)
  }

  ghost function Names(path: string, rest: Option<nat>): (r: seq<string>)
    requires rest.Some? ==> rest.value <= |path|
  {
    match rest case None => [] case Some(i) => Components(path, i)
  }

  lemma NamesNonEmpty(path: string, i: nat)
    requires i < |path|
    ensures Components(path, i) != []
  {
  }

  lemma ScanEnds(path: string, rest: Option<nat>)
    requires Scanning(path, rest) && (rest.Some? ==> rest.value >= |path|)
    ensures Names(path, rest) == [] && (EndsInSlash(path) <==> rest.Some? && rest.value > 0)
  {
  }

  /** The component at position i, whether it is the last, and where the scan goes on. */
  lemma ScanStep(path: string, i: nat)
    requires i < |path|
    ensures var s := NextSlash(path, i);
            var next := if s.Some? then Some(s.value + 1) else None;
            && Scanning(path, next) && Components(path, i) != [] && Components(path, i)[1..] == Names(path, next)
            && Components(path, i)[0] == Text(path, i, if s.Some? then s.value else |path|)
            && (|Components(path, i)| == 1 <==> s.None? || s.value + 1 == |path|)
  {
    hide Text;
    var s := NextSlash(path, i);
    if s.Some? && s.value + 1 < |path| { NamesNonEmpty(path, s.value + 1); }
  }

  // ---------------------------------------------------------------- unfolding the resolver

  lemma UnfoldLink(fs: Fs, root: Chain, c: Chain, mount: nat, names: seq<string>, slash: bool, two: bool, flags: Flags,
          depth: nat)
    requires depth < MAX_DEPTH && Rooted(fs, root, c) && names != [] && IsLink(fs, c)
    ensures Steps(fs, root, c, mount, names, slash, two, flags, depth) ==
            match Follow(fs, root, c, flags, depth)
            case Failed(code, d) => Failed(code, d)
            case Found(n, m, d) => Steps(fs, root, n, m, names, slash, two, flags, d)
  {
    hide Follow;
  }

  lemma UnfoldHop(fs: Fs, root: Chain, c: Chain, mount: nat, names: seq<string>, slash: bool, two: bool, flags: Flags,
          depth: nat)
    requires depth < MAX_DEPTH && Rooted(fs, root, c) && names != [] && !IsLink(fs, c)
    ensures Steps(fs, root, c, mount, names, slash, two, flags, depth) ==
            if !fs.enter(c.inode) then Failed(EACCES, depth)
            else if !fs.kind(c.inode).Directory? then Failed(ENOTDIR, depth)
            else match Advance(fs, c, mount, names[0], |names| == 1, flags)
                 case Nothing => Failed(ENOENT, depth)
                 case Hop(n, m) => Steps(fs, root, n, m, names[1..], slash, two, flags, depth)
    ensures match Advance(fs, c, mount, names[0], |names| == 1, flags)
            case Nothing => true
            case Hop(n, m) => Rooted(fs, root, n)
  {
    hide Follow;
  }

  lemma UnfoldEnd(fs: Fs, root: Chain, c: Chain, mount: nat, slash: bool, two: bool, flags: Flags, depth: nat)
    requires depth < MAX_DEPTH && Rooted(fs, root, c)
    ensures Steps(fs, root, c, mount, [], slash, two, flags, depth) ==
            if slash && (fs.kind(c.inode).RegularFile? || (c.Root? && two)) then Failed(ENOENT, depth)
            else if flags.keepLink || !IsLink(fs, c) then Found(c, mount, depth)
            else Follow(fs, root, c, flags, depth)
  {
    hide Follow;
  }

  /** How many names the path buffer is made for, and the bytes of an address of one. */
  const NAME_BUFFER_SIZE: nat := 15
  const ADDRESS_SIZE: nat := 8

  class Resolver {
    const fs: Fs
    const root: nat
    var nodes: Nodes
    var next: nat

    /** One root entry, which stands for a directory. */
    constructor (fs: Fs, inode: nat, mount: nat)
      requires fs.kind(inode).Directory?
      ensures this.fs == fs && Valid(multiset{root}) && nodes == map[root := Tnode("/", inode, None, mount, 1)]
    {
      this.fs := fs;
      root, next := 0, 1;
      nodes := map[0 := Tnode("/", inode, None, mount, 1)];
      new;
      assert Children(nodes, 0) == {};
      assert CountOk(nodes, multiset{0}, 0);
    }

    ghost predicate Valid(outside: multiset<nat>)
      reads this
    {
      Sound(fs, root, nodes, next, outside)
    }

    ghost function Chain(id: nat): (r: PathWalk.Chain)
      requires Forest(nodes) && id in nodes
      reads this
    {
      ChainOf(nodes, id)
    }

    method Bump(id: nat, ghost outside: multiset<nat>)
      requires Valid(outside) && id in nodes
      modifies this`nodes
      ensures Valid(outside + multiset{id}) && nodes == BumpNode(old(nodes), id)
      ensures Evolves(old(nodes), next, nodes, next)
    {
      hide Sound, Evolves;
      BumpSound(fs, root, nodes, next, outside, id);
      nodes := nodes[id := nodes[id].(count := nodes[id].count + 1)];
    }

    /** Drops one reference; the last one releases the parent's, and so on upward. Afterwards every count is right
        for the remaining holders and no entry that is left has changed otherwise. */
    method Release(id: nat, ghost outside: multiset<nat>)
      requires Counted(nodes, outside + multiset{id})
      modifies this`nodes
      ensures nodes == DropNode(old(nodes), id)
      ensures Counted(nodes, outside) && Agree(old(nodes), nodes) && nodes.Keys <= old(nodes.Keys)
      decreases id
    {
      hide Agree;
      DropCounted(nodes, outside, id);
      assert id in outside + multiset{id};
      assert CountOk(nodes, outside + multiset{id}, id);
      var t := nodes[id];
      if t.count == 1 {
        RemoveCounted(nodes, outside, id);
        nodes := nodes - {id};
        if t.parent.Some? { Release(t.parent.value, outside); }
      } else {
        nodes := nodes[id := t.(count := t.count - 1)];
      }
    }

    method Drop(id: nat, ghost outside: multiset<nat>)
      requires Valid(outside + multiset{id}) && root in outside
      modifies this`nodes
      ensures Valid(outside) && Evolves(old(nodes), next, nodes, next)
    {
      DropSound(fs, root, nodes, next, outside, id);
      hide Counted, Evolves, DropNode;
      Release(id, outside);
    }

    method Create(name: string, parent: nat, inode: nat, mount: nat, ghost outside: multiset<nat>) returns (id: nat)
      requires Valid(outside + multiset{parent}) && root in outside
      modifies this`nodes, this`next
      ensures Valid(outside + multiset{id}) && Evolves(old(nodes), old(next), nodes, next)
      ensures id in nodes && nodes[id].parent == Some(parent) && nodes[id].name == name && nodes[id].inode == inode
      ensures nodes[id].mount == mount
    {
      id := next;
      CreateSound(fs, root, nodes, next, outside, name, parent, inode, mount);
      hide Sound, Evolves;
      nodes := CreateNode(nodes, id, name, parent, inode, mount);
      next := next + 1;
    }

    /** The step up: the parent is bumped before the entry is dropped. */
    method ToParent(id: nat, ghost outside: multiset<nat>) returns (up: nat)
      requires Valid(outside + multiset{id}) && root in outside && id in nodes && id != root
      modifies this`nodes
      ensures Valid(outside + multiset{up}) && up in nodes && Evolves(old(nodes), next, nodes, next)
      ensures Some(up) == old(nodes[id].parent) && Forest(old(nodes)) && Forest(nodes) && up in old(nodes)
      ensures ChainOf(nodes, up) == ChainOf(old(nodes), up)
    {
      hide Sound, Evolves, Forest, ChainOf;
      ghost var was := nodes;
      HeldRooted(fs, root, nodes, next, outside + multiset{id}, id);
      up := nodes[id].parent.value;
      Bump(up, outside + multiset{id});
      ghost var mid := nodes;
      assert outside + multiset{id} + multiset{up} == outside + multiset{up} + multiset{id};
      Drop(id, outside + multiset{up});
      SoundHolds(fs, root, nodes, next, outside + multiset{up}, up);
      SoundBelow(fs, root, was, next, outside + multiset{id});
      EvolvesTwice(was, next, mid, next, nodes, next);
      ChainStays(fs, root, was, next, nodes, next, outside + multiset{id}, outside + multiset{up}, up);
    }

    /** One component below an entry that is given up for the result. */
    method Hop(parent: nat, mount: nat, name: string, last: bool, flags: Flags, ghost outside: multiset<nat>)
      returns (found: bool, id: nat, m: nat)
      requires Valid(outside + multiset{parent}) && root in outside && parent in nodes && Forest(nodes)
      modifies this`nodes, this`next
      ensures Evolves(old(nodes), old(next), nodes, next)
      ensures found == Advance(fs, old(Chain(parent)), mount, name, last, flags).Hop?
      ensures found ==> Valid(outside + multiset{id}) && id in nodes && Forest(nodes)
      ensures found ==> PathWalk.Hop(Chain(id), m) == Advance(fs, old(Chain(parent)), mount, name, last, flags)
      ensures !found ==> Valid(outside)
    {
      hide Sound, Evolves, Forest, ChainOf;
      ghost var was, n := nodes, next;
      HeldRooted(fs, root, nodes, next, outside + multiset{parent}, parent);
      if name == "." {
        EvolvesSame(nodes, next);
        return true, parent, mount;
      }
      if name == ".." {
        if parent == root {
          EvolvesSame(nodes, next);
          return true, parent, mount;
        }
        id := ToParent(parent, outside);
        return true, id, mount;
      }
      var inode := fs.lookup(nodes[parent].inode, name);
      if inode.None? {
        Drop(parent, outside);
        return false, 0, 0;
      }
      var target := inode.value;
      m := mount;
      if (!last || !flags.keepMountPoint) && fs.mounted(target).Some? {
        m := fs.mounted(target).value;
        target := fs.mountRoot(m);
      }
      id := Create(name, parent, target, m, outside);
      found := true;
      ChainCreated(fs, root, was, n, nodes, next, outside, parent, id);
    }

    /** The part of a round that is not about links: permission, directory, next component. */
    method Descend(parent: nat, mount: nat, path: string, i: nat, flags: Flags, depth: nat,
            ghost outside: multiset<nat>)
      returns (ok: bool, code: PathWalk.Error, id: nat, m: nat)
      requires Valid(outside + multiset{parent}) && root in outside && parent in nodes && root in nodes && Forest(nodes)
      requires i < |path| && depth < MAX_DEPTH && Rooted(fs, Chain(root), Chain(parent)) && !IsLink(fs, Chain(parent))
      modifies this`nodes, this`next
      ensures Evolves(old(nodes), old(next), nodes, next)
      ensures Valid(if ok then outside + multiset{id} else outside)
      ensures (ok ==> id in nodes && Forest(nodes) && Rooted(fs, old(Chain(root)), Chain(id)))
      ensures var next := if NextSlash(path, i).Some? then Some(NextSlash(path, i).value + 1) else None;
              && Scanning(path, next)
              && Steps(fs, old(Chain(root)), old(Chain(parent)), mount, Components(path, i), EndsInSlash(path),
                  |path| == 2, flags, depth) ==
                 (if ok then Steps(fs, old(Chain(root)), Chain(id), m, Names(path, next), EndsInSlash(path),
                                   |path| == 2, flags, depth)
                  else Failed(code, depth))
    {
      hide Sound, Evolves, Forest, ChainOf, Steps, Components, NextSlash, EndsInSlash, NoSlash, Text, Advance;
      ghost var rc, pc := Chain(root), Chain(parent);
      HeldRooted(fs, root, nodes, next, outside + multiset{parent}, parent);
      ScanStep(path, i);
      UnfoldHop(fs, rc, pc, mount, Components(path, i), EndsInSlash(path), |path| == 2, flags, depth);
      code, id, m := ENOENT, 0, 0;
      if !fs.enter(nodes[parent].inode) {
        Drop(parent, outside);
        return false, EACCES, 0, 0;
      }
      if !fs.kind(nodes[parent].inode).Directory? {
        Drop(parent, outside);
        return false, ENOTDIR, 0, 0;
      }
      var slash := NextSlash(path, i);
      var name := Text(path, i, if slash.Some? then slash.value else |path|);
      ok, id, m := Hop(parent, mount, name, slash.None? || slash.value + 1 == |path|, flags, outside);
    }

    /** Follows the link an entry stands for; the entry is given up. */
    method FollowLink(node: nat, flags: Flags, depth: nat, ghost outside: multiset<nat>) returns (r: Reply, d: nat)
      requires Valid(outside + multiset{node}) && root in outside && node in nodes && root in nodes && Forest(nodes)
      requires depth < MAX_DEPTH
      requires fs.kind(nodes[node].inode).SymbolicLink? && Rooted(fs, Chain(root), Chain(node))
      requires IsLink(fs, Chain(node))
      modifies this`nodes, this`next
      ensures Evolves(old(nodes), old(next), nodes, next)
      ensures Matches(nodes, r, d, Follow(fs, old(Chain(root)), old(Chain(node)), flags, depth))
      ensures Valid(if r.Node? then outside + multiset{r.id} else outside)
      decreases MAX_DEPTH - depth, 0
    {
      hide Sound, Evolves, Forest, ChainOf, Resolve;
      ghost var was, n, rc, nc := nodes, next, Chain(root), Chain(node);
      HeldRooted(fs, root, nodes, next, outside + multiset{node}, node);
      HeldRooted(fs, root, nodes, next, outside + multiset{node}, root);
      match fs.link(nodes[node].inode)
      case Unreadable => Drop(node, outside); return Error(ENOENT), depth;
      case Broken(code) => Drop(node, outside); return Error(code), depth;
      case Target(path) =>
        if path == nodes[node].name {
          Drop(node, outside);
          return Error(ELOOP), depth;
        }
        var up := ToParent(node, outside);
        ghost var mid := nodes;
        SoundHolds(fs, root, nodes, next, outside + multiset{up}, root);
        ChainStays(fs, root, was, n, nodes, next, outside + multiset{node}, outside + multiset{up}, root);
        assert Chain(root) == rc && Chain(up) == nc.parent;
        r, d := Iname(path, flags, up, depth + 1, outside + multiset{up});
        ghost var after, n1, out := nodes, next, if r.Node? then outside + multiset{r.id} else outside;
        assert (if r.Node? then outside + multiset{up} + multiset{r.id} else outside + multiset{up}) ==
            out + multiset{up};
        Drop(up, out);
        SoundBelow(fs, root, was, n, outside + multiset{node});
        SoundBelow(fs, root, mid, n, outside + multiset{up});
        EvolvesTwice(mid, n, after, n1, nodes, next);
        EvolvesTwice(was, n, mid, n, nodes, next);
        if r.Node? {
          SoundHolds(fs, root, nodes, next, out, r.id);
          ChainStays(fs, root, after, n1, nodes, next, out + multiset{up}, out, r.id);
        }
    }

    /** The checks behind the last component: a trailing slash, and a link that is not to be kept. */
    method Finish(parent: nat, mount: nat, path: string, rest: Option<nat>, flags: Flags, depth: nat,
            ghost outside: multiset<nat>)
      returns (r: Reply, d: nat)
      requires Valid(outside + multiset{parent}) && root in outside && parent in nodes && root in nodes && Forest(nodes)
      requires depth < MAX_DEPTH && Rooted(fs, Chain(root), Chain(parent))
      requires EndsInSlash(path) <==> rest.Some? && rest.value > 0
      modifies this`nodes, this`next
      ensures Evolves(old(nodes), old(next), nodes, next)
      ensures Matches(nodes, r, d, Steps(fs, old(Chain(root)), old(Chain(parent)), mount, [], EndsInSlash(path),
          |path| == 2, flags, depth))
      ensures Valid(if r.Node? then outside + multiset{r.id} else outside)
      decreases MAX_DEPTH - depth, 1
    {
      hide Sound, Evolves, Forest, ChainOf, Steps, Follow, EndsInSlash, Rooted, RootOf, Below;
      HeldRooted(fs, root, nodes, next, outside + multiset{parent}, parent);
      UnfoldEnd(fs, Chain(root), Chain(parent), mount, EndsInSlash(path), |path| == 2, flags, depth);
      EvolvesSame(nodes, next);
      d := depth;
      if && rest.Some? && rest.value > 0
         && (fs.kind(nodes[parent].inode).RegularFile? || (parent == root && |path| == 2))
      {
        Drop(parent, outside);
        return Error(ENOENT), d;
      }
      if flags.keepLink || !fs.kind(nodes[parent].inode).SymbolicLink? { return Node(parent, mount), d; }
      r, d := FollowLink(parent, flags, d, outside);
    }

    /** One turn of the scan: a link is followed, or the component at position i is walked. */
    method Turn(parent: nat, mount: nat, path: string, i: nat, flags: Flags, depth: nat, ghost outside: multiset<nat>)
      returns (r: Reply, id: nat, m: nat, rest: Option<nat>, d: nat)
      requires Valid(outside + multiset{parent}) && root in outside && parent in nodes && root in nodes && Forest(nodes)
      requires i < |path| && depth < MAX_DEPTH && Rooted(fs, Chain(root), Chain(parent)) && Scanning(path, Some(i))
      modifies this`nodes, this`next
      ensures Evolves(old(nodes), old(next), nodes, next)
      ensures r.Node? ==>
                && Valid(outside + multiset{id}) && id in nodes && root in nodes && Forest(nodes)
                && Chain(root) == old(Chain(root)) && Rooted(fs, Chain(root), Chain(id))
                && depth <= d < MAX_DEPTH && Scanning(path, rest)
                && (depth < d || rest.None? || i < rest.value)
      ensures r.Error? ==> Valid(outside)
      ensures var goal := Steps(fs, old(Chain(root)), old(Chain(parent)), mount, Components(path, i), EndsInSlash(path),
                                |path| == 2, flags, depth);
              match r
              case Error(code) => goal == Failed(code, d)
              case Node(_, _) =>
                goal == Steps(fs, old(Chain(root)), Chain(id), m, Names(path, rest), EndsInSlash(path),
                              |path| == 2, flags, d)
      decreases MAX_DEPTH - depth, 1
    {
      hide Sound, Evolves, Forest, ChainOf, Steps, Follow, Components, NextSlash, EndsInSlash, NoSlash, Rooted, RootOf,
           Below;
      ghost var now, n, held, rc := nodes, next, outside + multiset{parent}, Chain(root);
      NamesNonEmpty(path, i);
      HeldRooted(fs, root, nodes, next, held, parent);
      rest, d := Some(i), depth;
      if fs.kind(nodes[parent].inode).SymbolicLink? {
        UnfoldLink(fs, rc, Chain(parent), mount, Components(path, i), EndsInSlash(path), |path| == 2, flags, depth);
        id, m := parent, mount;
        r, d := FollowLink(parent, flags, depth, outside);
        if r.Error? { return; }
        id, m := r.id, r.mount;
      } else {
        var ok, code;
        ok, code, id, m := Descend(parent, mount, path, i, flags, depth, outside);
        r := if ok then Node(id, m) else Error(code);
        if !ok { return; }
        rest := if NextSlash(path, i).Some? then Some(NextSlash(path, i).value + 1) else None;
      }
      Settle(fs, root, now, n, held, nodes, next, outside + multiset{id}, id);
    }

    /** Resolves a path. On success exactly one reference more is held, to the result; on failure the tree is as
        before. */
    method Iname(path: string, flags: Flags, base: nat, depth: nat, ghost outside: multiset<nat>)
      returns (r: Reply, d: nat)
      requires Valid(outside) && base in outside && root in outside && base in nodes && root in nodes && Forest(nodes)
      requires depth <= MAX_DEPTH
      requires Rooted(fs, Chain(root), Chain(base))
      modifies this`nodes, this`next
      ensures Evolves(old(nodes), old(next), nodes, next)
      ensures Matches(nodes, r, d, Resolve(fs, old(Chain(root)), old(Chain(base)), path, flags, depth))
      ensures Valid(if r.Node? then outside + multiset{r.id} else outside)
      decreases MAX_DEPTH - depth, 2
    {
      hide Sound, Evolves, Forest, ChainOf, Steps, Follow, Components, NextSlash, EndsInSlash, NoSlash, Rooted, RootOf,
           Below;
      if depth >= MAX_DEPTH {
        EvolvesSame(nodes, next);
        return Error(ELOOP), depth;
      }
      ghost var was, n, rc, goal := nodes, next, Chain(root), Resolve(fs, Chain(root), Chain(base), path, flags, depth);
      SoundBelow(fs, root, nodes, next, outside);
      var parent: nat := if Absolute(path) then root else base;
      HeldRooted(fs, root, nodes, next, outside, parent);
      var mount := nodes[parent].mount;
      Bump(parent, outside);
      SoundHolds(fs, root, nodes, next, outside + multiset{parent}, root);
      ChainStays(fs, root, was, n, nodes, next, outside, outside + multiset{parent}, root);
      ChainStays(fs, root, was, n, nodes, next, outside, outside + multiset{parent}, parent);
      var rest: Option<nat> := Some(if Absolute(path) then 1 else 0);
      d := depth;
      while rest.Some? && rest.value < |path|
        invariant Valid(outside + multiset{parent}) && parent in nodes && root in nodes && Forest(nodes)
        invariant Evolves(was, n, nodes, next) && Chain(root) == rc && Rooted(fs, rc, Chain(parent))
        invariant depth <= d < MAX_DEPTH && Scanning(path, rest)
        invariant goal ==
                  Steps(fs, rc, Chain(parent), mount, Names(path, rest), EndsInSlash(path), |path| == 2, flags, d)
        decreases MAX_DEPTH - d, if rest.Some? then |path| + 1 - rest.value else 0
      {
        ghost var now, m := nodes, next;
        var id, at;
        r, id, at, rest, d := Turn(parent, mount, path, rest.value, flags, d, outside);
        EvolvesTwice(was, n, now, m, nodes, next);
        if r.Error? { return; }
        parent, mount := id, at;
      }
      ScanEnds(path, rest);
      ghost var now, m := nodes, next;
      r, d := Finish(parent, mount, path, rest, flags, d, outside);
      EvolvesTwice(was, n, now, m, nodes, next);
    }

    /** The entry point. A failed resolution leaves every entry and every count as it was; a successful one adds
        exactly one reference, to the entry that the pure resolver names. */
    method InameWithBase(path: string, flags: Flags, base: nat, ghost outside: multiset<nat>) returns (r: Reply, d: nat)
      requires Valid(outside) && base in outside
      modifies this`nodes, this`next
      ensures Forest(old(nodes)) && root in old(nodes) && base in old(nodes)
      ensures Evolves(old(nodes), old(next), nodes, next) && d <= MAX_DEPTH
      ensures Rooted(fs, old(Chain(root)), old(Chain(base)))
      ensures Matches(nodes, r, d, Resolve(fs, old(Chain(root)), old(Chain(base)), path, flags, 0))
      ensures r.Node? ==> Valid(outside + multiset{r.id})
      ensures r.Error? ==> nodes == old(nodes) && Valid(outside)
    {
      ghost var was, n := nodes, next;
      assert root in outside && Below(nodes, next);
      SoundHolds(fs, root, nodes, next, outside, base);
      HeldRooted(fs, root, nodes, next, outside, base);
      hide Evolves, Forest, ChainOf;
      r, d := Iname(path, flags, base, 0, outside);
      if r.Error? { Restored(fs, root, was, n, nodes, next, outside); }
    }

    /** Resolving a path and dropping the result leaves every entry and every count as it was. */
    method Probe(path: string, flags: Flags, base: nat, ghost outside: multiset<nat>) returns (found: bool)
      requires Valid(outside) && base in outside
      modifies this`nodes, this`next
      ensures nodes == old(nodes) && Valid(outside)
      ensures Forest(nodes) && root in nodes && base in nodes && Rooted(fs, Chain(root), Chain(base))
      ensures found <==> Resolve(fs, Chain(root), Chain(base), path, flags, 0).Found?
    {
      ghost var was, n := nodes, next;
      assert root in outside && Below(nodes, next);
      hide Sound, Evolves, Forest, ChainOf;
      var r, d := InameWithBase(path, flags, base, outside);
      if r.Node? {
        ghost var mid, m := nodes, next;
        Drop(r.id, outside);
        EvolvesTwice(was, n, mid, m, nodes, next);
        Restored(fs, root, was, n, nodes, next, outside);
      }
      found := r.Node?;
    }

    /** The absolute path of an entry: names are collected upward in a buffer and joined downward. The buffer has
        room for 15 names, is looked at only after a name is stored in it, and is then given a size in bytes that
        was meant to count names; so every access is in bounds if and only if there are no more than 15. */
    method GetPath(id: nat, ghost outside: multiset<nat>) returns (path: string, inBounds: bool)
      requires Valid(outside) && id in nodes
      ensures Forest(nodes) && path == PathOf(Chain(id))
      ensures inBounds <==> |NamesOf(Chain(id))| <= NAME_BUFFER_SIZE
    {
      hide Sound, Forest, ChainOf;
      HeldRooted(fs, root, nodes, next, outside, id);
      if nodes[id].parent.None? { return "/", true; }
      var names: seq<string>, at := [], id;
      var size, capacity := NAME_BUFFER_SIZE, NAME_BUFFER_SIZE;
      inBounds := true;
      while nodes[at].parent.Some?
        invariant at in nodes && Forest(nodes) && PathOf(Chain(id)) == Joined(Chain(at), names)
        invariant (at == root ==> names != [])
        invariant |NamesOf(Chain(id))| == |NamesOf(Chain(at))| + |names|
        invariant inBounds <==> |names| <= NAME_BUFFER_SIZE
        invariant inBounds ==> size == capacity == NAME_BUFFER_SIZE
        decreases at
      {
        HeldRooted(fs, root, nodes, next, outside, at);
        ParentOlder(nodes, at);
        JoinUp(Chain(at), names);
        inBounds := inBounds && |names| < capacity;
        names := names + [nodes[at].name];
        at := nodes[at].parent.value;
        if |names| - 1 >= size {
          size := size * 2;
          capacity := size / ADDRESS_SIZE;
        }
      }
      HeldRooted(fs, root, nodes, next, outside, at);
      inBounds := inBounds && |names| <= capacity;
      path := Join(names);
    }

    method Join(names: seq<string>) returns (path: string)
      ensures path == Slashed(names)
    {
      path := "";
      var i := |names|;
      assert names[..i] == names;
      while i > 0
        invariant 0 <= i <= |names| && path + Slashed(names[..i]) == Slashed(names)
      {
        i := i - 1;
        SlashedLast(names, i, path);
        path := path + "/" + names[i];
      }
    }
  }

  lemma SlashedLast(names: seq<string>, i: nat, path: string)
    requires i < |names|
    ensures path + Slashed(names[..i + 1]) == path + "/" + names[i] + Slashed(names[..i])
  {
    assert names[..i + 1][..i] == names[..i];
    assert Slashed(names[..i + 1]) == "/" + names[i] + Slashed(names[..i]);
  }

  lemma JoinUp(c: Chain, names: seq<string>)
    requires c.Entry?
    ensures Joined(c, names) == Joined(c.parent, names + [c.name])
  {
    var all := names + [c.name];
    assert all[..|all| - 1] == names;
    assert Slashed(all) == "/" + c.name + Slashed(names);
    assert PathOf(c) + Slashed(names) == (if c.parent.Root? then "" else PathOf(c.parent)) + Slashed(all);
  }

  lemma ParentOlder(nodes: Nodes, id: nat)
    requires Forest(nodes) && id in nodes && nodes[id].parent.Some?
    ensures nodes[id].parent.value < id
  {
  }

  /** Names, the deepest first, each behind a slash. */
  ghost function Slashed(names: seq<string>): (r: string) {
    if names == [] then "" else "/" + names[|names| - 1] + Slashed(names[..|names| - 1])
  }

  /** The path of an entry with names below it, the deepest first. */
  ghost function Joined(c: Chain, names: seq<string>): (r: string) {
    (if c.Root? && names != [] then "" else PathOf(c)) + Slashed(names)
  }

  lemma Restored(fs: Fs, root: nat, a: Nodes, n: nat, b: Nodes, n': nat, outside: multiset<nat>)
    requires Sound(fs, root, a, n, outside) && Sound(fs, root, b, n', outside) && Evolves(a, n, b, n')
    ensures b == a
  {
    hide Counted;
    SameHolders(a, b, outside, n');
  }

  lemma SoundHolds(fs: Fs, root: nat, nodes: Nodes, next: nat, outside: multiset<nat>, id: nat)
    requires Sound(fs, root, nodes, next, outside) && id in outside
    ensures id in nodes && Forest(nodes)
  {
  }

  lemma SoundBelow(fs: Fs, root: nat, nodes: Nodes, next: nat, outside: multiset<nat>)
    requires Sound(fs, root, nodes, next, outside)
    ensures Below(nodes, next)
  {
    hide Counted;
  }

  lemma EvolvesSame(nodes: Nodes, next: nat)
    ensures Evolves(nodes, next, nodes, next)
  {
  }

  lemma ChainCreated(fs: Fs, root: nat, nodes: Nodes, next: nat, nodes': Nodes, next': nat, outside: multiset<nat>,
          parent: nat, id: nat)
    requires Sound(fs, root, nodes, next, outside + multiset{parent})
    requires Sound(fs, root, nodes', next', outside + multiset{id})
    requires Evolves(nodes, next, nodes', next') && parent in nodes && id in nodes' && nodes'[id].parent == Some(parent)
    ensures Forest(nodes) && Forest(nodes')
    ensures ChainOf(nodes', id) == Entry(ChainOf(nodes, parent), nodes'[id].name, nodes'[id].inode, nodes'[id].mount)
  {
    HeldRooted(fs, root, nodes', next', outside + multiset{id}, id);
    hide Sound, Forest, Evolves;
    ChainStays(fs, root, nodes, next, nodes', next', outside + multiset{parent}, outside + multiset{id}, parent);
  }
}
