/** Path resolution without reference counts (kernel/fs/vfs.c): what a path means, on chains of directory
    entries. */
module PathWalk {
  import opened Common

  datatype Kind = Directory | RegularFile | SymbolicLink | Special

  datatype Link = Unreadable | Broken(code: Error) | Target(path: string)

  datatype Error = ENOENT | ELOOP | EACCES | ENOTDIR | EOTHER(number: nat)

  /** The file system while a path is resolved. Inodes and mounts are numbers; `enter` is the search permission
      of the credentials in force. */
  datatype Fs = Fs(kind: nat -> Kind, lookup: (nat, string) -> Option<nat>, link: nat -> Link,
                   mounted: nat -> Option<nat>, mountRoot: nat -> nat, enter: nat -> bool)

  /** Where a name leads: the entries from the root to it. */
  datatype Chain = Root(inode: nat, mount: nat) | Entry(parent: Chain, name: string, inode: nat, mount: nat)

  datatype Flags = Flags(keepLink: bool, keepMountPoint: bool)

  datatype Outcome = Found(node: Chain, mount: nat, depth: nat) | Failed(code: Error, depth: nat)

  /** The limit on link expansions. */
  const MAX_DEPTH: nat := 25

  // ---------------------------------------------------------------- paths

  ghost predicate NoSlash(path: string, i: nat, j: nat)
    requires j <= |path|
  {
    forall k :: i <= k < j ==> path[k] != '/'
  }

  /** The next slash from position i on. */
  function NextSlash(path: string, i: nat): (r: Option<nat>)
    requires i <= |path|
    ensures r.Some? ==> i <= r.value < |path| && path[r.value] == '/' && NoSlash(path, i, r.value)
    ensures r.None? ==> NoSlash(path, i, |path|)
    decreases |path| - i
  {
    if i == |path| then None else if path[i] == '/' then Some(i) else NextSlash(path, i + 1)
  }

  function Text(path: string, i: nat, j: nat): (r: string)
    requires i <= j <= |path|
  {
    path[i..j]
  }

  /** The components from position i on; a slash at the end adds none. */
  function Components(path: string, i: nat): (r: seq<string>)
    requires i <= |path|
    decreases |path| - i
  {
    if i == |path| then []
    else match NextSlash(path, i)
         case None => [Text(path, i, |path|)]
         case Some(s) => [Text(path, i, s)] + Components(path, s + 1)
  }

  predicate Absolute(path: string) { path != "" && path[0] == '/' }

  predicate EndsInSlash(path: string) { path != "" && path[|path| - 1] == '/' }

  // ---------------------------------------------------------------- resolution

  predicate IsLink(fs: Fs, c: Chain) { fs.kind(c.inode).SymbolicLink? }

  function RootOf(c: Chain): (r: Chain)
    ensures r.Root?
  {
    if c.Root? then c else RootOf(c.parent)
  }

  /** A chain that starts at the root, which is no link. */
  predicate Rooted(fs: Fs, root: Chain, c: Chain) { RootOf(c) == root && !IsLink(fs, root) }

  /** One component under a directory that may be searched. */
  datatype Hop = Hop(node: Chain, mount: nat) | Nothing

  function Advance(fs: Fs, node: Chain, mount: nat, name: string, last: bool, flags: Flags): (r: Hop) {
    if name == "." then Hop(node, mount)
    else if name == ".." then Hop(if node.Root? then node else node.parent, mount)
    else match fs.lookup(node.inode, name)
         case None => Nothing
         case Some(inode) =>
           if (!last || !flags.keepMountPoint) && fs.mounted(inode).Some? then
             var m := fs.mounted(inode).value;
             Hop(Entry(node, name, fs.mountRoot(m), m), m)
           else Hop(Entry(node, name, inode, mount), mount)
  }

  /** Resolves a path from the root or from `base`. `depth` counts link expansions. */
  function Resolve(fs: Fs, root: Chain, base: Chain, path: string, flags: Flags, depth: nat): (r: Outcome)
    requires depth <= MAX_DEPTH && Rooted(fs, root, base)
    ensures depth <= r.depth <= MAX_DEPTH && (r.Found? ==> r.depth < MAX_DEPTH && Rooted(fs, root, r.node))
    decreases MAX_DEPTH - depth, 1, 0
  {
    if depth >= MAX_DEPTH then Failed(ELOOP, depth)
    else
      var start := if Absolute(path) then root else base;
      Steps(fs, root, start, start.mount, Components(path, if Absolute(path) then 1 else 0), EndsInSlash(path),
          |path| == 2, flags, depth)
  }

  /** Follows a link from the directory it is in. */
  function Follow(fs: Fs, root: Chain, node: Chain, flags: Flags, depth: nat): (r: Outcome)
    requires depth < MAX_DEPTH && Rooted(fs, root, node) && IsLink(fs, node)
    ensures depth <= r.depth <= MAX_DEPTH && (r.Found? ==> depth < r.depth < MAX_DEPTH && Rooted(fs, root, r.node))
    decreases MAX_DEPTH - depth, 0, 0
  {
    match fs.link(node.inode)
    case Unreadable => Failed(ENOENT, depth)
    case Broken(code) => Failed(code, depth)
    case Target(path) =>
      if path == node.name then Failed(ELOOP, depth)
      else Resolve(fs, root, node.parent, path, flags, depth + 1)
  }

  function Steps(fs: Fs, root: Chain, node: Chain, mount: nat, names: seq<string>, slash: bool, two: bool, flags: Flags,
          depth: nat): (r: Outcome)
    requires depth < MAX_DEPTH && Rooted(fs, root, node)
    ensures depth <= r.depth <= MAX_DEPTH && (r.Found? ==> r.depth < MAX_DEPTH && Rooted(fs, root, r.node))
    decreases MAX_DEPTH - depth, 0, |names| + 1
  {
    if names == [] then
      if slash && (fs.kind(node.inode).RegularFile? || (node.Root? && two)) then Failed(ENOENT, depth)
      else if flags.keepLink || !IsLink(fs, node) then Found(node, mount, depth)
      else Follow(fs, root, node, flags, depth)
    else if IsLink(fs, node) then
      match Follow(fs, root, node, flags, depth)
      case Failed(code, d) => Failed(code, d)
      case Found(n, m, d) => Steps(fs, root, n, m, names, slash, two, flags, d)
    else if !fs.enter(node.inode) then Failed(EACCES, depth)
    else if !fs.kind(node.inode).Directory? then Failed(ENOTDIR, depth)
    else match Advance(fs, node, mount, names[0], |names| == 1, flags)
         case Nothing => Failed(ENOENT, depth)
         case Hop(n, m) => Steps(fs, root, n, m, names[1..], slash, two, flags, depth)
  }

  // ---------------------------------------------------------------- what resolution promises

  /** Unless links are to be kept, the result is not a link. */
  lemma {:induction false} ResolveFollows(fs: Fs, root: Chain, base: Chain, path: string, flags: Flags, depth: nat)
    requires depth <= MAX_DEPTH && Rooted(fs, root, base) && !flags.keepLink
    ensures var r := Resolve(fs, root, base, path, flags, depth); r.Found? ==> !IsLink(fs, r.node)
    decreases MAX_DEPTH - depth, 1, 0
  {
    if depth < MAX_DEPTH {
      var start := if Absolute(path) then root else base;
      StepsFollow(fs, root, start, start.mount, Components(path, if Absolute(path) then 1 else 0), EndsInSlash(path),
          |path| == 2, flags, depth);
    }
  }

  lemma {:induction false} StepsFollow(fs: Fs, root: Chain, node: Chain, mount: nat, names: seq<string>, slash: bool,
          two: bool, flags: Flags, depth: nat)
    requires depth < MAX_DEPTH && Rooted(fs, root, node) && !flags.keepLink
    ensures var r := Steps(fs, root, node, mount, names, slash, two, flags, depth); r.Found? ==> !IsLink(fs, r.node)
    decreases MAX_DEPTH - depth, 0, |names|
  {
    if IsLink(fs, node) {
      var f := Follow(fs, root, node, flags, depth);
      if names != [] && f.Found? {
        StepsFollow(fs, root, f.node, f.mount, names, slash, two, flags, f.depth);
      } else if fs.link(node.inode).Target? {
        ResolveFollows(fs, root, node.parent, fs.link(node.inode).path, flags, depth + 1);
      }
    } else if names != [] && fs.enter(node.inode) && fs.kind(node.inode).Directory? {
      var h := Advance(fs, node, mount, names[0], |names| == 1, flags);
      if h.Hop? { StepsFollow(fs, root, h.node, h.mount, names[1..], slash, two, flags, depth); }
    }
  }

  /** Every entry of a chain is what its directory has under that name, or the root of what is mounted there. */
  ghost predicate Real(fs: Fs, c: Chain) {
    c.Entry? ==>
      && Real(fs, c.parent) && fs.kind(c.parent.inode).Directory? && fs.lookup(c.parent.inode, c.name).Some?
      && var i := fs.lookup(c.parent.inode, c.name).value;
         c.inode == i || (fs.mounted(i).Some? && c.inode == fs.mountRoot(fs.mounted(i).value)
             && c.mount == fs.mounted(i).value)
  }

  lemma {:induction false} ResolveReal(fs: Fs, root: Chain, base: Chain, path: string, flags: Flags, depth: nat)
    requires depth <= MAX_DEPTH && Rooted(fs, root, base) && Real(fs, base)
    ensures var r := Resolve(fs, root, base, path, flags, depth); r.Found? ==> Real(fs, r.node)
    decreases MAX_DEPTH - depth, 1, 0
  {
    if depth < MAX_DEPTH {
      var start := if Absolute(path) then root else base;
      StepsReal(fs, root, start, start.mount, Components(path, if Absolute(path) then 1 else 0), EndsInSlash(path),
          |path| == 2, flags, depth);
    }
  }

  lemma {:induction false} StepsReal(fs: Fs, root: Chain, node: Chain, mount: nat, names: seq<string>, slash: bool,
          two: bool, flags: Flags, depth: nat)
    requires depth < MAX_DEPTH && Rooted(fs, root, node) && Real(fs, node)
    ensures var r := Steps(fs, root, node, mount, names, slash, two, flags, depth); r.Found? ==> Real(fs, r.node)
    decreases MAX_DEPTH - depth, 0, |names|
  {
    if IsLink(fs, node) {
      if fs.link(node.inode).Target? { ResolveReal(fs, root, node.parent, fs.link(node.inode).path, flags, depth + 1); }
      var f := Follow(fs, root, node, flags, depth);
      if names != [] && f.Found? { StepsReal(fs, root, f.node, f.mount, names, slash, two, flags, f.depth); }
    } else if names != [] && fs.enter(node.inode) && fs.kind(node.inode).Directory? {
      var h := Advance(fs, node, mount, names[0], |names| == 1, flags);
      if h.Hop? { StepsReal(fs, root, h.node, h.mount, names[1..], slash, two, flags, depth); }
    }
  }

  // ---------------------------------------------------------------- composition

  /** The walk to a directory on the way: nothing here is the last component. */
  function WalkTo(fs: Fs, root: Chain, node: Chain, mount: nat, names: seq<string>, flags: Flags,
          depth: nat): (r: Outcome)
    requires depth < MAX_DEPTH && Rooted(fs, root, node)
    ensures depth <= r.depth <= MAX_DEPTH && (r.Found? ==> r.depth < MAX_DEPTH && Rooted(fs, root, r.node))
    decreases MAX_DEPTH - depth, |names|
  {
    if names == [] then Found(node, mount, depth)
    else if IsLink(fs, node) then
      match Follow(fs, root, node, flags, depth)
      case Failed(code, d) => Failed(code, d)
      case Found(n, m, d) => WalkTo(fs, root, n, m, names, flags, d)
    else if !fs.enter(node.inode) then Failed(EACCES, depth)
    else if !fs.kind(node.inode).Directory? then Failed(ENOTDIR, depth)
    else match Advance(fs, node, mount, names[0], false, flags)
         case Nothing => Failed(ENOENT, depth)
         case Hop(n, m) => WalkTo(fs, root, n, m, names[1..], flags, depth)
  }

  lemma {:induction false} StepsCompose(fs: Fs, root: Chain, node: Chain, mount: nat, xs: seq<string>, ys: seq<string>,
          slash: bool, two: bool, flags: Flags, depth: nat)
    requires depth < MAX_DEPTH && Rooted(fs, root, node) && ys != []
    ensures Steps(fs, root, node, mount, xs + ys, slash, two, flags, depth) ==
            match WalkTo(fs, root, node, mount, xs, flags, depth)
            case Failed(code, d) => Failed(code, d)
            case Found(n, m, d) => Steps(fs, root, n, m, ys, slash, two, flags, d)
    decreases MAX_DEPTH - depth, |xs|
  {
    if xs == [] {
      assert xs + ys == ys;
    } else {
      assert (xs + ys)[0] == xs[0] && (xs + ys)[1..] == xs[1..] + ys;
      if IsLink(fs, node) {
        var f := Follow(fs, root, node, flags, depth);
        if f.Found? { StepsCompose(fs, root, f.node, f.mount, xs, ys, slash, two, flags, f.depth); }
      } else if fs.enter(node.inode) && fs.kind(node.inode).Directory? {
        var h := Advance(fs, node, mount, xs[0], false, flags);
        if h.Hop? { StepsCompose(fs, root, h.node, h.mount, xs[1..], ys, slash, two, flags, depth); }
      }
    }
  }

  lemma {:induction false} NextSlashIs(path: string, i: nat, s: nat)
    requires i <= s < |path| && path[s] == '/' && NoSlash(path, i, s)
    ensures NextSlash(path, i) == Some(s)
    decreases |path| - i
  {
    if i < s { NextSlashIs(path, i + 1, s); }
  }

  lemma {:induction false} NextSlashNone(path: string, i: nat)
    requires i <= |path| && NoSlash(path, i, |path|)
    ensures NextSlash(path, i) == None
    decreases |path| - i
  {
    if i < |path| { NextSlashNone(path, i + 1); }
  }

  /** t ends with q from position d on. */
  ghost predicate Suffix(t: string, d: nat,
          q: string) { |t| == d + |q| && forall k :: 0 <= k < |q| ==> t[d + k] == q[k] }

  ghost predicate Prefix(t: string, p: string) { |p| <= |t| && forall k :: 0 <= k < |p| ==> t[k] == p[k] }

  lemma SuffixSlash(t: string, d: nat, q: string, i: nat)
    requires Suffix(t, d, q) && i <= |q|
    ensures NextSlash(t, d + i) == match NextSlash(q, i) case None => None case Some(s) => Some(d + s)
  {
    hide NextSlash;
    match NextSlash(q, i)
    case None =>
      forall k | d + i <= k < |t| ensures t[k] != '/' { assert t[k] == q[k - d]; }
      NextSlashNone(t, d + i);
    case Some(s) =>
      forall k | d + i <= k < d + s ensures t[k] != '/' { assert t[k] == q[k - d]; }
      NextSlashIs(t, d + i, d + s);
  }

  lemma ComponentsUpTo(path: string, i: nat, s: nat)
    requires i < |path| && NextSlash(path, i) == Some(s)
    ensures Components(path, i) == [Text(path, i, s)] + Components(path, s + 1)
  {
    hide NextSlash;
  }

  lemma ComponentsEnd(path: string, i: nat)
    requires i <= |path|
    ensures i == |path| ==> Components(path, i) == []
  {
  }

  lemma ComponentsLast(path: string, i: nat)
    requires i < |path| && NextSlash(path, i) == None
    ensures Components(path, i) == [Text(path, i, |path|)]
  {
    hide NextSlash;
  }

  lemma SameText(t: string, d: nat, q: string, i: nat, s: nat)
    requires Suffix(t, d, q) && i <= s <= |q| && d + |q| == |t|
    ensures Text(t, d + i, d + s) == Text(q, i, s)
  {
  }

  lemma SameStart(t: string, p: string, i: nat, s: nat)
    requires Prefix(t, p) && i <= s <= |p| <= |t|
    ensures Text(t, i, s) == Text(p, i, s)
  {
  }

  lemma {:induction false} ComponentsSuffix(t: string, d: nat, q: string, i: nat)
    requires Suffix(t, d, q) && i <= |q| && d + |q| == |t|
    ensures Components(t, d + i) == Components(q, i)
    decreases |q| - i
  {
    hide NextSlash, Components, Suffix, NoSlash, Text;
    ComponentsEnd(q, i);
    ComponentsEnd(t, d + i);
    if i < |q| {
      SuffixSlash(t, d, q, i);
      var s := NextSlash(q, i);
      if s.Some? {
        ComponentsUpTo(q, i, s.value);
        ComponentsUpTo(t, d + i, d + s.value);
        ComponentsSuffix(t, d, q, s.value + 1);
        SameText(t, d, q, i, s.value);
      } else {
        ComponentsLast(q, i);
        ComponentsLast(t, d + i);
        SameText(t, d, q, i, |q|);
      }
    }
  }

  lemma PrefixSlash(t: string, p: string, i: nat)
    requires Prefix(t, p) && i <= |p| < |t| && t[|p|] == '/'
    ensures NextSlash(t, i) == match NextSlash(p, i) case None => Some(|p|) case Some(s) => Some(s)
  {
    hide NextSlash;
    match NextSlash(p, i)
    case None => NextSlashIs(t, i, |p|);
    case Some(s) => NextSlashIs(t, i, s);
  }

  /** The components of a path and a relative path after it. */
  lemma {:induction false} ComponentsConcat(t: string, p: string, q: string, i: nat)
    requires i < |p| && p[|p| - 1] != '/' && Prefix(t, p) && |p| < |t| && t[|p|] == '/' && Suffix(t, |p| + 1, q)
    requires |p| + 1 + |q| == |t|
    ensures Components(t, i) == Components(p, i) + Components(q, 0)
    decreases |p| - i
  {
    hide NextSlash, Components, Suffix, Prefix, NoSlash, Text;
    PrefixSlash(t, p, i);
    var s := NextSlash(p, i);
    if s.Some? {
      ComponentsUpTo(p, i, s.value);
      ComponentsUpTo(t, i, s.value);
      ComponentsConcat(t, p, q, s.value + 1);
      SameStart(t, p, i, s.value);
      assert [Text(p, i, s.value)] + (Components(p, s.value + 1) + Components(q, 0)) ==
          Components(p, i) + Components(q, 0);
    } else {
      ComponentsLast(p, i);
      ComponentsUpTo(t, i, |p|);
      ComponentsSuffix(t, |p| + 1, q, 0);
      SameStart(t, p, i, |p|);
    }
  }

  /** Resolving p/q is walking to p and resolving q there. */
  lemma PathsCompose(fs: Fs, root: Chain, base: Chain, p: string, q: string, flags: Flags, depth: nat)
    requires depth < MAX_DEPTH && Rooted(fs, root, base) && q != "" && !EndsInSlash(p) && p != ""
    ensures var start, i := if Absolute(p) then root else base, if Absolute(p) then 1 else 0;
            Resolve(fs, root, base, p + "/" + q, flags, depth) ==
            match WalkTo(fs, root, start, start.mount, Components(p, i), flags, depth)
            case Failed(code, d) => Failed(code, d)
            case Found(n, m, d) => Steps(fs, root, n, m, Components(q, 0), EndsInSlash(q), false, flags, d)
  {
    var start, i := if Absolute(p) then root else base, if Absolute(p) then 1 else 0;
    var t := p + "/" + q;
    assert Absolute(t) == Absolute(p) && EndsInSlash(t) == EndsInSlash(q) && i < |p|;
    ComponentsConcat(t, p, q, i);
    assert Components(q, 0) != [];
    StepsCompose(fs, root, start, start.mount, Components(p, i), Components(q, 0), EndsInSlash(q), false, flags, depth);
  }

  // ---------------------------------------------------------------- cycles

  lemma DotComponents(name: string)
    requires name != "" && NoSlash(name, 0, |name|)
    ensures Components("./" + name, 0) == [".", name] && !EndsInSlash("./" + name) && !Absolute("./" + name)
    ensures |"./" + name| > |name|
  {
    var path := "./" + name;
    assert Text(path, 0, 1) == "." && path[|path| - 1] == name[|name| - 1] && Text(name, 0, |name|) == name;
    NextSlashIs(path, 0, 1);
    ComponentsUpTo(path, 0, 1);
    ComponentsSuffix(path, 2, name, 0);
    NextSlashNone(name, 0);
    ComponentsLast(name, 0);
  }

  /** A link to itself is given up when the limit is reached, however deep the resolution already is. */
  lemma {:induction false} CycleFails(fs: Fs, root: Chain, node: Chain, flags: Flags, depth: nat)
    requires depth < MAX_DEPTH && Rooted(fs, root, node) && IsLink(fs, node) && !flags.keepLink
    requires node.name != "" && node.name != "." && node.name != ".." && NoSlash(node.name, 0, |node.name|)
    requires fs.link(node.inode) == Target("./" + node.name)
    requires fs.kind(node.parent.inode).Directory? && fs.enter(node.parent.inode)
    requires fs.lookup(node.parent.inode, node.name) == Some(node.inode) && fs.mounted(node.inode).None?
    requires node.parent.mount == node.mount
    ensures Follow(fs, root, node, flags, depth) == Failed(ELOOP, 25)
    decreases MAX_DEPTH - depth
  {
    DotComponents(node.name);
    if depth + 1 < MAX_DEPTH {
      CycleFails(fs, root, node, flags, depth + 1);
      CycleStep(fs, root, node, flags, depth + 1);
    }
  }

  lemma CycleStep(fs: Fs, root: Chain, node: Chain, flags: Flags, depth: nat)
    requires depth < MAX_DEPTH && Rooted(fs, root, node) && IsLink(fs, node) && !flags.keepLink
    requires node.name != "." && node.name != ".."
    requires fs.kind(node.parent.inode).Directory? && fs.enter(node.parent.inode)
    requires fs.lookup(node.parent.inode, node.name) == Some(node.inode) && fs.mounted(node.inode).None?
    requires node.parent.mount == node.mount
    ensures Steps(fs, root, node.parent, node.parent.mount, [".", node.name], false,
                  |"./" + node.name| == 2, flags, depth) ==
            Follow(fs, root, node, flags, depth)
  {
    hide Follow, Resolve;
    var up, two := node.parent, |"./" + node.name| == 2;
    assert [".", node.name][1..] == [node.name] && [node.name][1..] == [];
    assert Advance(fs, up, up.mount, node.name, true, flags) == Hop(node, node.mount);
    assert Steps(fs, root, up, up.mount, [node.name], false, two, flags, depth) ==
        Steps(fs, root, node, node.mount, [], false, two, flags, depth);
    assert Advance(fs, up, up.mount, ".", false, flags) == Hop(up, up.mount);
  }

  // ---------------------------------------------------------------- the path of an entry

  /** The absolute path of an entry. */
  function PathOf(c: Chain): (r: string) {
    if c.Root? then "/" else (if c.parent.Root? then "" else PathOf(c.parent)) + "/" + c.name
  }

  function NamesOf(c: Chain): (r: seq<string>) { if c.Root? then [] else NamesOf(c.parent) + [c.name] }

  predicate Proper(name: string) {
    name != "" && name != "." && name != ".." && (forall k :: 0 <= k < |name| ==> name[k] != '/')
  }

  /** Every entry is still what a search of its directory finds, mounts included, and the directories may be
      searched. */
  ghost predicate Current(fs: Fs, c: Chain) {
    c.Entry? ==>
      && Current(fs, c.parent) && Proper(c.name) && fs.kind(c.parent.inode).Directory? && fs.enter(c.parent.inode)
      && Advance(fs, c.parent, c.parent.mount, c.name, false, Flags(false, false)) == Hop(c, c.mount)
  }

  lemma {:induction false} PathComponents(fs: Fs, c: Chain)
    requires Current(fs, c) && c.Entry?
    ensures 1 < |PathOf(c)| && PathOf(c)[0] == '/' && !EndsInSlash(PathOf(c)) && Components(PathOf(c), 1) == NamesOf(c)
  {
    var t, n := PathOf(c), c.name;
    assert t[|t| - 1] == n[|n| - 1];
    NextSlashNone(n, 0);
    ComponentsLast(n, 0);
    assert Text(n, 0, |n|) == n && Components(n, 0) == [n];
    if c.parent.Root? {
      ComponentsSuffix(t, 1, n, 0);
    } else {
      PathComponents(fs, c.parent);
      var p := PathOf(c.parent);
      assert t == p + "/" + n;
      hide Components, NextSlash;
      ComponentsConcat(t, p, n, 1);
    }
  }

  /** One more component at the end of a walk. */
  lemma {:induction false} WalkToSnoc(fs: Fs, root: Chain, node: Chain, mount: nat, names: seq<string>, name: string,
          flags: Flags, depth: nat)
    requires depth < MAX_DEPTH && Rooted(fs, root, node)
    ensures WalkTo(fs, root, node, mount, names + [name], flags, depth) ==
            match WalkTo(fs, root, node, mount, names, flags, depth)
            case Failed(code, d) => Failed(code, d)
            case Found(n, m, d) => WalkTo(fs, root, n, m, [name], flags, d)
    decreases MAX_DEPTH - depth, |names|
  {
    var all := names + [name];
    if names == [] {
      assert all == [name];
    } else {
      assert all[0] == names[0] && all[1..] == names[1..] + [name];
      if IsLink(fs, node) {
        var f := Follow(fs, root, node, flags, depth);
        if f.Found? { WalkToSnoc(fs, root, f.node, f.mount, names, name, flags, f.depth); }
      } else if fs.enter(node.inode) && fs.kind(node.inode).Directory? {
        var h := Advance(fs, node, mount, names[0], false, flags);
        if h.Hop? { WalkToSnoc(fs, root, h.node, h.mount, names[1..], name, flags, depth); }
      }
    }
  }

  lemma {:induction false} WalkReaches(fs: Fs, root: Chain, c: Chain, flags: Flags, depth: nat)
    requires depth < MAX_DEPTH && Rooted(fs, root, c) && Current(fs, c)
    ensures WalkTo(fs, root, root, root.mount, NamesOf(c), flags, depth) == Found(c, c.mount, depth)
  {
    if c.Entry? {
      WalkReaches(fs, root, c.parent, flags, depth);
      WalkToSnoc(fs, root, root, root.mount, NamesOf(c.parent), c.name, flags, depth);
      WalkOne(fs, root, c, flags, depth);
    }
  }

  lemma WalkOne(fs: Fs, root: Chain, c: Chain, flags: Flags, depth: nat)
    requires depth < MAX_DEPTH && Rooted(fs, root, c) && Current(fs, c) && c.Entry?
    ensures WalkTo(fs, root, c.parent, c.parent.mount, [c.name], flags, depth) == Found(c, c.mount, depth)
  {
    hide Follow;
    assert [c.name][1..] == [];
    assert Advance(fs, c.parent, c.parent.mount, c.name, false, flags) == Hop(c, c.mount);
    assert WalkTo(fs, root, c, c.mount, [], flags, depth) == Found(c, c.mount, depth);
  }

  /** Round trip: resolving the path of an entry leads back to the entry. */
  lemma PathRoundTrip(fs: Fs, root: Chain, base: Chain, c: Chain, flags: Flags, depth: nat)
    requires depth < MAX_DEPTH && Rooted(fs, root, base) && Rooted(fs, root, c) && Current(fs, c)
    requires !flags.keepMountPoint
    requires (flags.keepLink || !IsLink(fs, c)) && fs.kind(root.inode).Directory?
    ensures Resolve(fs, root, base, PathOf(c), flags, depth) == Found(c, c.mount, depth)
  {
    if c.Entry? {
      PathComponents(fs, c);
      WalkReaches(fs, root, c.parent, flags, depth);
      StepsCompose(fs, root, root, root.mount, NamesOf(c.parent), [c.name], false, |PathOf(c)| == 2, flags, depth);
      LastStep(fs, root, c, |PathOf(c)| == 2, flags, depth);
    }
  }

  lemma LastStep(fs: Fs, root: Chain, c: Chain, two: bool, flags: Flags, depth: nat)
    requires depth < MAX_DEPTH && Rooted(fs, root, c) && Current(fs, c) && c.Entry? && !flags.keepMountPoint
    requires flags.keepLink || !IsLink(fs, c)
    ensures Steps(fs, root, c.parent, c.parent.mount, [c.name], false, two, flags, depth) == Found(c, c.mount, depth)
  {
    hide Follow, Resolve;
    assert [c.name][1..] == [];
    assert Advance(fs, c.parent, c.parent.mount, c.name, true, flags) == Hop(c, c.mount);
    assert Steps(fs, root, c, c.mount, [], false, two, flags, depth) == Found(c, c.mount, depth);
  }
}
