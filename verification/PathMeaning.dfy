/** What a path means, said without the resolver: the names it leads to, which mounts it crosses, and why it fails
    (kernel/fs/vfs.c). */
module PathMeaning {
  import opened Common
  import opened PathWalk

  // ---------------------------------------------------------------- names

  /** Where a list of components leads, from the entry with these names: a dot stays, two dots drop the last name if
      there is one, and any other component is a further name. */
  function Normal(names: seq<string>, components: seq<string>): (r: seq<string>)
    decreases |components|
  {
    if components == [] then names
    else
      var c := components[0];
      Normal(if c == "." then names
             else if c == ".." then (if names == [] then [] else names[..|names| - 1])
             else names + [c],
             components[1..])
  }

  lemma AdvanceNames(fs: Fs, node: Chain, mount: nat, name: string, last: bool, flags: Flags)
    ensures var h := Advance(fs, node, mount, name, last, flags);
            h.Hop? ==> NamesOf(h.node) == Normal(NamesOf(node), [name])
  {
    assert [name][1..] == [];
    if node.Entry? { assert (NamesOf(node.parent) + [node.name])[..|NamesOf(node.parent)|] == NamesOf(node.parent); }
  }

  lemma NormalStep(names: seq<string>, components: seq<string>)
    requires components != []
    ensures Normal(names, components) == Normal(Normal(names, [components[0]]), components[1..])
  {
    assert [components[0]][1..] == [];
  }

  /** A walk that expands no link ends at the entry whose names are the normal form of the path. */
  lemma {:induction false} StepsNames(fs: Fs, root: Chain, node: Chain, mount: nat, names: seq<string>, slash: bool,
          two: bool, flags: Flags, depth: nat)
    requires depth < MAX_DEPTH && Rooted(fs, root, node)
    ensures var r := Steps(fs, root, node, mount, names, slash, two, flags, depth);
            r.Found? && r.depth == depth ==> NamesOf(r.node) == Normal(NamesOf(node), names)
    decreases |names|
  {
    hide Follow, Normal, NamesOf, Advance;
    if names == [] {
      NormalNone(NamesOf(node));
    } else if IsLink(fs, node) {
      hide Steps;
      LinkExpands(fs, root, node, mount, names, slash, two, flags, depth);
    } else if fs.enter(node.inode) && fs.kind(node.inode).Directory? {
      var h := Advance(fs, node, mount, names[0], |names| == 1, flags);
      if h.Hop? {
        AdvanceNames(fs, node, mount, names[0], |names| == 1, flags);
        NormalStep(NamesOf(node), names);
        AdvanceRooted(fs, root, node, mount, names[0], |names| == 1, flags);
        StepsNames(fs, root, h.node, h.mount, names[1..], slash, two, flags, depth);
      }
    }
  }

  lemma NormalNone(names: seq<string>)
    ensures Normal(names, []) == names
  {
  }

  lemma AdvanceRooted(fs: Fs, root: Chain, node: Chain, mount: nat, name: string, last: bool, flags: Flags)
    requires Rooted(fs, root, node)
    ensures var h := Advance(fs, node, mount, name, last, flags); h.Hop? ==> Rooted(fs, root, h.node)
  {
  }

  lemma LinkExpands(fs: Fs, root: Chain, node: Chain, mount: nat, names: seq<string>, slash: bool, two: bool,
          flags: Flags, depth: nat)
    requires depth < MAX_DEPTH && Rooted(fs, root, node) && names != [] && IsLink(fs, node)
    ensures var r := Steps(fs, root, node, mount, names, slash, two, flags, depth); r.Found? ==> depth < r.depth
  {
    hide Follow;
  }

  /** The same of a whole path. */
  lemma ResolveNames(fs: Fs, root: Chain, base: Chain, path: string, flags: Flags, depth: nat)
    requires depth <= MAX_DEPTH && Rooted(fs, root, base)
    ensures var r := Resolve(fs, root, base, path, flags, depth);
            r.Found? && r.depth == depth ==>
              NamesOf(r.node) == if Absolute(path) then Normal([], Components(path, 1))
                                 else Normal(NamesOf(base), Components(path, 0))
  {
    hide Steps, Components, Normal;
    if depth < MAX_DEPTH {
      var start := if Absolute(path) then root else base;
      StepsNames(fs, root, start, start.mount, Components(path, if Absolute(path) then 1 else 0), EndsInSlash(path),
                 |path| == 2, flags, depth);
    }
  }

  lemma DotDotComponents()
    ensures Components("..", 0) == [".."] && !EndsInSlash("..")
  {
    assert NoSlash("..", 0, 2);
    NextSlashNone("..", 0);
    ComponentsLast("..", 0);
    assert Text("..", 0, 2) == "..";
  }

  /** Two dots behind the path of a directory lead to the directory above. The mount in force stays the one below. */
  lemma DotDotLeads(fs: Fs, root: Chain, base: Chain, d: Chain, flags: Flags, depth: nat)
    requires depth < MAX_DEPTH && Rooted(fs, root, base) && Rooted(fs, root, d) && Current(fs, d) && d.Entry?
    requires fs.kind(d.inode).Directory? && fs.enter(d.inode)
    ensures Resolve(fs, root, base, PathOf(d) + "/..", flags, depth) == Found(d.parent, d.mount, depth)
  {
    PathComponents(fs, d);
    WalkReaches(fs, root, d, flags, depth);
    DotDotComponents();
    hide Components, Follow, WalkTo, PathOf, Resolve;
    assert PathOf(d) + "/" + ".." == PathOf(d) + "/..";
    PathsCompose(fs, root, base, PathOf(d), "..", flags, depth);
    DotDotStep(fs, root, d, flags, depth);
  }

  lemma DotDotStep(fs: Fs, root: Chain, d: Chain, flags: Flags, depth: nat)
    requires depth < MAX_DEPTH && Rooted(fs, root, d) && Current(fs, d) && d.Entry?
    requires fs.kind(d.inode).Directory? && fs.enter(d.inode)
    ensures Steps(fs, root, d, d.mount, [".."], false, false, flags, depth) == Found(d.parent, d.mount, depth)
  {
    hide Follow;
    assert [".."][1..] == [];
    assert Steps(fs, root, d.parent, d.mount, [], false, false, flags, depth) == Found(d.parent, d.mount, depth);
  }

  /** At the root they lead nowhere else. */
  lemma DotDotAtRoot(fs: Fs, root: Chain, base: Chain, flags: Flags, depth: nat)
    requires depth < MAX_DEPTH && Rooted(fs, root, base) && fs.kind(root.inode).Directory? && fs.enter(root.inode)
    ensures Resolve(fs, root, base, "/..", flags, depth) == Found(root, root.mount, depth)
  {
    DotDotComponents();
    ComponentsSuffix("/..", 1, "..", 0);
    hide Follow, Components;
    assert [".."][1..] == [];
    assert Steps(fs, root, root, root.mount, [], false, false, flags, depth) == Found(root, root.mount, depth);
    assert Steps(fs, root, root, root.mount, [".."], false, false, flags, depth) == Found(root, root.mount, depth);
  }

  // ---------------------------------------------------------------- mounts

  /** Every entry is what its directory has under that name, or, if something is mounted there, its root. */
  ghost predicate Met(fs: Fs, c: Chain) {
    c.Entry? ==>
      && Met(fs, c.parent) && fs.kind(c.parent.inode).Directory? && fs.lookup(c.parent.inode, c.name).Some?
      && var i := fs.lookup(c.parent.inode, c.name).value;
         match fs.mounted(i)
         case None => c.inode == i
         case Some(m) => c.inode == fs.mountRoot(m) && c.mount == m
  }

  lemma AdvanceMet(fs: Fs, node: Chain, mount: nat, name: string, last: bool, flags: Flags)
    requires Met(fs, node) && fs.kind(node.inode).Directory? && !flags.keepMountPoint
    ensures var h := Advance(fs, node, mount, name, last, flags); h.Hop? ==> Met(fs, h.node)
  {
  }

  /** Unless a mount point at the end is to be kept, every mount on the way is crossed. */
  lemma {:induction false} ResolveMet(fs: Fs, root: Chain, base: Chain, path: string, flags: Flags, depth: nat)
    requires depth <= MAX_DEPTH && Rooted(fs, root, base) && Met(fs, base) && !flags.keepMountPoint
    ensures var r := Resolve(fs, root, base, path, flags, depth); r.Found? ==> Met(fs, r.node)
    decreases MAX_DEPTH - depth, 1, 0
  {
    hide Steps, Components;
    if depth < MAX_DEPTH {
      var start := if Absolute(path) then root else base;
      RootMet(fs, root, base);
      StepsMet(fs, root, start, start.mount, Components(path, if Absolute(path) then 1 else 0), EndsInSlash(path),
               |path| == 2, flags, depth);
    }
  }

  lemma RootMet(fs: Fs, root: Chain, base: Chain)
    requires Rooted(fs, root, base)
    ensures Met(fs, root)
  {
  }

  lemma {:induction false} StepsMet(fs: Fs, root: Chain, node: Chain, mount: nat, names: seq<string>, slash: bool,
          two: bool, flags: Flags, depth: nat)
    requires depth < MAX_DEPTH && Rooted(fs, root, node) && Met(fs, node) && !flags.keepMountPoint
    ensures var r := Steps(fs, root, node, mount, names, slash, two, flags, depth); r.Found? ==> Met(fs, r.node)
    decreases MAX_DEPTH - depth, 0, |names|
  {
    hide Advance;
    if IsLink(fs, node) {
      if fs.link(node.inode).Target? { ResolveMet(fs, root, node.parent, fs.link(node.inode).path, flags, depth + 1); }
      hide Resolve, Met;
      var f := Follow(fs, root, node, flags, depth);
      if names != [] && f.Found? { StepsMet(fs, root, f.node, f.mount, names, slash, two, flags, f.depth); }
    } else if names != [] && fs.enter(node.inode) && fs.kind(node.inode).Directory? {
      hide Met, Follow;
      var h := Advance(fs, node, mount, names[0], |names| == 1, flags);
      AdvanceMet(fs, node, mount, names[0], |names| == 1, flags);
      AdvanceRooted(fs, root, node, mount, names[0], |names| == 1, flags);
      if h.Hop? { StepsMet(fs, root, h.node, h.mount, names[1..], slash, two, flags, depth); }
    }
  }

  /** A mount point at the end that is to be kept is not crossed. */
  lemma MountPointKept(fs: Fs, root: Chain, node: Chain, mount: nat, name: string, two: bool, flags: Flags, depth: nat)
    requires depth < MAX_DEPTH && Rooted(fs, root, node) && Proper(name) && flags.keepMountPoint
    requires fs.kind(node.inode).Directory? && fs.enter(node.inode) && fs.lookup(node.inode, name).Some?
    requires flags.keepLink || !fs.kind(fs.lookup(node.inode, name).value).SymbolicLink?
    ensures Steps(fs, root, node, mount, [name], false, two, flags, depth) ==
            Found(Entry(node, name, fs.lookup(node.inode, name).value, mount), mount, depth)
  {
    hide Follow;
    assert [name][1..] == [];
    var n := Entry(node, name, fs.lookup(node.inode, name).value, mount);
    assert Steps(fs, root, n, mount, [], false, two, flags, depth) == Found(n, mount, depth);
  }

  /** Names determine the inodes they lead to. */
  lemma {:induction false} NamesLocate(fs: Fs, c: Chain, d: Chain)
    requires Met(fs, c) && Met(fs, d) && RootOf(c) == RootOf(d) && NamesOf(c) == NamesOf(d)
    ensures c.inode == d.inode
  {
    if c.Entry? {
      assert NamesOf(c)[|NamesOf(c)| - 1] == c.name && NamesOf(d) != [];
      assert NamesOf(d)[|NamesOf(d)| - 1] == d.name;
      assert NamesOf(c.parent) == NamesOf(c)[..|NamesOf(c)| - 1] && NamesOf(d.parent) == NamesOf(d)[..|NamesOf(d)| - 1];
      NamesLocate(fs, c.parent, d.parent);
    } else {
      assert NamesOf(d) == [];
    }
  }

  /** So two paths with the same normal form, found without expanding a link, name the same inode. */
  lemma SameNormalForm(fs: Fs, root: Chain, base: Chain, p: string, q: string, flags: Flags, depth: nat)
    requires depth <= MAX_DEPTH && Rooted(fs, root, base) && Met(fs, base) && !flags.keepMountPoint
    requires Absolute(p) && Absolute(q) && Normal([], Components(p, 1)) == Normal([], Components(q, 1))
    ensures var r, s := Resolve(fs, root, base, p, flags, depth), Resolve(fs, root, base, q, flags, depth);
            r.Found? && s.Found? && r.depth == depth == s.depth ==> r.node.inode == s.node.inode
  {
    hide Resolve, Met, NamesOf, Components, Normal;
    var r, s := Resolve(fs, root, base, p, flags, depth), Resolve(fs, root, base, q, flags, depth);
    if r.Found? && s.Found? && r.depth == depth == s.depth {
      ResolveNames(fs, root, base, p, flags, depth);
      ResolveNames(fs, root, base, q, flags, depth);
      ResolveMet(fs, root, base, p, flags, depth);
      ResolveMet(fs, root, base, q, flags, depth);
      NamesLocate(fs, r.node, s.node);
    }
  }

  // ---------------------------------------------------------------- failures

  /** Why a walk that has come to n, with the components from `k` on to go, ends there with an error. */
  ghost predicate Why(fs: Fs, n: Chain, names: seq<string>, k: nat, slash: bool, two: bool, code: Error)
    requires k <= |names|
  {
    if IsLink(fs, n) then
      match fs.link(n.inode)
      case Unreadable => code == ENOENT
      case Broken(c) => code == c
      case Target(path) => n.Entry? && path == n.name && code == ELOOP
    else if k == |names| then
      code == ENOENT && slash && (fs.kind(n.inode).RegularFile? || (n.Root? && two))
    else if !fs.enter(n.inode) then code == EACCES
    else if !fs.kind(n.inode).Directory? then code == ENOTDIR
    else code == ENOENT && names[k] != "." && names[k] != ".." && fs.lookup(n.inode, names[k]) == None
  }

  /** A walk that fails without having expanded a link fails at the entry where the components walked so far lead,
      and for the first of these reasons that there is. */
  lemma {:induction false} StepsFail(fs: Fs, root: Chain, node: Chain, mount: nat, names: seq<string>, slash: bool,
          two: bool, flags: Flags, depth: nat) returns (n: Chain, k: nat)
    requires depth < MAX_DEPTH && Rooted(fs, root, node)
    requires var r := Steps(fs, root, node, mount, names, slash, two, flags, depth); r.Failed? && r.depth == depth
    ensures k <= |names| && Rooted(fs, root, n) && NamesOf(n) == Normal(NamesOf(node), names[..k])
    ensures Why(fs, n, names, k, slash, two, Steps(fs, root, node, mount, names, slash, two, flags, depth).code)
    decreases |names|
  {
    n, k := node, 0;
    assert names[..0] == [];
    NormalNone(NamesOf(node));
    if names != [] && !IsLink(fs, node) && fs.enter(node.inode) && fs.kind(node.inode).Directory? {
      var h := Advance(fs, node, mount, names[0], |names| == 1, flags);
      if h.Hop? {
        AdvanceRooted(fs, root, node, mount, names[0], |names| == 1, flags);
        AdvanceNames(fs, node, mount, names[0], |names| == 1, flags);
        var j;
        n, j := StepsFail(fs, root, h.node, h.mount, names[1..], slash, two, flags, depth);
        k := j + 1;
        assert names[..k][0] == names[0] && names[..k][1..] == names[1..][..j];
        NormalStep(NamesOf(node), names[..k]);
        assert k < |names| ==> names[k] == names[1..][j];
      }
    } else if IsLink(fs, node) {
      LinkFails(fs, root, node, mount, names, slash, two, flags, depth);
    }
  }

  lemma LinkFails(fs: Fs, root: Chain, node: Chain, mount: nat, names: seq<string>, slash: bool, two: bool,
          flags: Flags, depth: nat)
    requires depth < MAX_DEPTH && Rooted(fs, root, node) && IsLink(fs, node)
    requires var r := Steps(fs, root, node, mount, names, slash, two, flags, depth); r.Failed? && r.depth == depth
    ensures Why(fs, node, names, 0, slash, two, Steps(fs, root, node, mount, names, slash, two, flags, depth).code)
  {
    hide Resolve;
  }

  // ---------------------------------------------------------------- links

  /** Two characters that end in a slash are one component, and not two dots. */
  lemma ShortPath(path: string)
    requires |path| == 2 && EndsInSlash(path) && !Absolute(path)
    ensures Components(path, 0) == [path[..1]] && path[..1] != ".."
  {
    assert NoSlash(path, 0, 1);
    NextSlashIs(path, 0, 1);
    ComponentsUpTo(path, 0, 1);
    ComponentsEnd(path, 2);
    assert Text(path, 0, 1) == path[..1];
  }

  lemma ShortSteps(fs: Fs, root: Chain, node: Chain, mount: nat, name: string, two: bool, flags: Flags, depth: nat)
    requires depth < MAX_DEPTH && Rooted(fs, root, node) && node.Entry? && !IsLink(fs, node) && name != ".."
    ensures Steps(fs, root, node, mount, [name], true, two, flags, depth) ==
            Steps(fs, root, node, mount, [name], true, false, flags, depth)
  {
    hide Follow;
    assert [name][1..] == [];
    var h := Advance(fs, node, mount, name, true, flags);
    if h.Hop? {
      assert h.node.Entry?;
      AdvanceRooted(fs, root, node, mount, name, true, flags);
      assert Steps(fs, root, h.node, h.mount, [], true, two, flags, depth) ==
             Steps(fs, root, h.node, h.mount, [], true, false, flags, depth);
    }
  }

  /** Following a link with a relative target is resolving the target written behind the path of the directory that
      the link is in, one expansion deeper. */
  lemma LinkIsItsTarget(fs: Fs, root: Chain, base: Chain, link: Chain, target: string, flags: Flags, depth: nat)
    requires depth + 1 < MAX_DEPTH && Rooted(fs, root, base) && Rooted(fs, root, link) && IsLink(fs, link)
    requires fs.link(link.inode) == Target(target) && target != link.name && target != "" && !Absolute(target)
    requires Current(fs, link) && link.parent.Entry?
    ensures Follow(fs, root, link, flags, depth) ==
            Resolve(fs, root, base, PathOf(link.parent) + "/" + target, flags, depth + 1)
  {
    hide Components, Steps, PathOf, Resolve, NamesOf;
    var d := link.parent;
    RelativeTarget(fs, root, d, target, flags, depth + 1);
    BehindPath(fs, root, base, d, target, flags, depth + 1);
  }

  /** A relative path resolved from a directory. */
  lemma RelativeTarget(fs: Fs, root: Chain, d: Chain, target: string, flags: Flags, depth: nat)
    requires depth < MAX_DEPTH && Rooted(fs, root, d) && d.Entry? && !IsLink(fs, d) && !Absolute(target)
    ensures Resolve(fs, root, d, target, flags, depth) ==
            Steps(fs, root, d, d.mount, Components(target, 0), EndsInSlash(target), false, flags, depth)
  {
    hide Components, Steps;
    if |target| == 2 && EndsInSlash(target) {
      ShortPath(target);
      ShortSteps(fs, root, d, d.mount, target[..1], true, flags, depth);
    } else if |target| == 2 {
      NoSlashTwo(fs, root, d, d.mount, Components(target, 0), flags, depth);
    }
  }

  /** The same path written behind the directory's own. */
  lemma BehindPath(fs: Fs, root: Chain, base: Chain, d: Chain, target: string, flags: Flags, depth: nat)
    requires depth < MAX_DEPTH && Rooted(fs, root, base) && Rooted(fs, root, d) && d.Entry? && Current(fs, d)
    requires target != ""
    ensures Resolve(fs, root, base, PathOf(d) + "/" + target, flags, depth) ==
            Steps(fs, root, d, d.mount, Components(target, 0), EndsInSlash(target), false, flags, depth)
  {
    hide Components, Steps, WalkTo, PathOf, Resolve, NamesOf;
    PathComponents(fs, d);
    WalkReaches(fs, root, d, flags, depth);
    PathsCompose(fs, root, base, PathOf(d), target, flags, depth);
  }

  lemma {:induction false} NoSlashTwo(fs: Fs, root: Chain, node: Chain, mount: nat, names: seq<string>, flags: Flags,
          depth: nat)
    requires depth < MAX_DEPTH && Rooted(fs, root, node)
    ensures Steps(fs, root, node, mount, names, false, true, flags, depth) ==
            Steps(fs, root, node, mount, names, false, false, flags, depth)
    decreases MAX_DEPTH - depth, |names|
  {
    hide Follow;
    if names != [] {
      if IsLink(fs, node) {
        var f := Follow(fs, root, node, flags, depth);
        if f.Found? { NoSlashTwo(fs, root, f.node, f.mount, names, flags, f.depth); }
      } else if fs.enter(node.inode) && fs.kind(node.inode).Directory? {
        var h := Advance(fs, node, mount, names[0], |names| == 1, flags);
        AdvanceRooted(fs, root, node, mount, names[0], |names| == 1, flags);
        if h.Hop? { NoSlashTwo(fs, root, h.node, h.mount, names[1..], flags, depth); }
      }
    }
  }

  /** A link that names itself fails without being expanded. */
  lemma LinkToItself(fs: Fs, root: Chain, link: Chain, flags: Flags, depth: nat)
    requires depth < MAX_DEPTH && Rooted(fs, root, link) && IsLink(fs, link)
    requires fs.link(link.inode) == Target(link.name)
    ensures Follow(fs, root, link, flags, depth) == Failed(ELOOP, depth)
    ensures Steps(fs, root, link, link.mount, [], false, false, flags, depth) ==
            if flags.keepLink then Found(link, link.mount, depth) else Failed(ELOOP, depth)
  {
  }

  // ---------------------------------------------------------------- the mount in force

  function Names(path: string): (r: seq<string>) { Components(path, if Absolute(path) then 1 else 0) }

  /** No link leads up. */
  ghost predicate LinksStayBelow(fs: Fs) {
    forall i: nat :: fs.link(i).Target? ==> ".." !in Names(fs.link(i).path)
  }

  /** Without ".." on the way, the mount in force at the end is the one the entry found belongs to. With it, it need not
      be: two dots out of a mounted root leave that mount in force. */
  lemma {:induction false} ResolveMount(fs: Fs, root: Chain, base: Chain, path: string, flags: Flags, depth: nat)
    requires depth <= MAX_DEPTH && Rooted(fs, root, base) && LinksStayBelow(fs) && ".." !in Names(path)
    ensures var r := Resolve(fs, root, base, path, flags, depth); r.Found? ==> r.mount == r.node.mount
    decreases MAX_DEPTH - depth, 1, 0
  {
    hide Steps, Components;
    if depth < MAX_DEPTH {
      var start := if Absolute(path) then root else base;
      StepsMount(fs, root, start, Names(path), EndsInSlash(path), |path| == 2, flags, depth);
    }
  }

  lemma {:induction false} StepsMount(fs: Fs, root: Chain, node: Chain, names: seq<string>, slash: bool, two: bool,
                                      flags: Flags, depth: nat)
    requires depth < MAX_DEPTH && Rooted(fs, root, node) && LinksStayBelow(fs) && ".." !in names
    ensures var r := Steps(fs, root, node, node.mount, names, slash, two, flags, depth);
            r.Found? ==> r.mount == r.node.mount
    decreases MAX_DEPTH - depth, 0, |names|
  {
    if IsLink(fs, node) {
      if fs.link(node.inode).Target? {
        ResolveMount(fs, root, node.parent, fs.link(node.inode).path, flags, depth + 1);
      }
      hide Resolve, Names;
      var f := Follow(fs, root, node, flags, depth);
      if names != [] && f.Found? { StepsMount(fs, root, f.node, names, slash, two, flags, f.depth); }
    } else if names != [] && fs.enter(node.inode) && fs.kind(node.inode).Directory? {
      hide Follow, Names;
      var h := Advance(fs, node, node.mount, names[0], |names| == 1, flags);
      AdvanceRooted(fs, root, node, node.mount, names[0], |names| == 1, flags);
      if h.Hop? { StepsMount(fs, root, h.node, names[1..], slash, two, flags, depth); }
    }
  }

  // ---------------------------------------------------------------- a slash at the end

  /** Where links are kept, a slash at the end changes nothing, except that a regular file is then not found, nor the
      root by a path of two characters. */
  lemma TrailingSlash(fs: Fs, root: Chain, base: Chain, p: string, flags: Flags, depth: nat)
    requires depth < MAX_DEPTH && Rooted(fs, root, base) && p != "" && !EndsInSlash(p) && flags.keepLink
    ensures var o := Resolve(fs, root, base, p, flags, depth);
            Resolve(fs, root, base, p + "/", flags, depth) ==
            if o.Found? && (fs.kind(o.node.inode).RegularFile? || (o.node.Root? && |p| == 1))
            then Failed(ENOENT, o.depth) else o
  {
    hide Steps, Components;
    SlashAddsNothing(p, if Absolute(p) then 1 else 0);
    var start := if Absolute(p) then root else base;
    SlashedSteps(fs, root, start, start.mount, Names(p), |p| == 1, |p| == 2, flags, depth);
  }

  lemma {:induction false} SlashAddsNothing(p: string, i: nat)
    requires i < |p| && !EndsInSlash(p)
    ensures Components(p + "/", i) == Components(p, i)
    decreases |p| - i
  {
    hide NextSlash, Components;
    var t := p + "/";
    match NextSlash(p, i)
    case None =>
      NextSlashIs(t, i, |p|);
      ComponentsLast(p, i);
      ComponentsUpTo(t, i, |p|);
      ComponentsEnd(t, |t|);
      assert Text(t, i, |p|) == Text(p, i, |p|);
    case Some(s) =>
      NextSlashIs(t, i, s);
      ComponentsUpTo(p, i, s);
      ComponentsUpTo(t, i, s);
      SlashAddsNothing(p, s + 1);
      assert Text(t, i, s) == Text(p, i, s);
  }

  lemma {:induction false} SlashedSteps(fs: Fs, root: Chain, node: Chain, mount: nat, names: seq<string>, two: bool,
                                        two': bool, flags: Flags, depth: nat)
    requires depth < MAX_DEPTH && Rooted(fs, root, node) && flags.keepLink
    ensures var o := Steps(fs, root, node, mount, names, false, two', flags, depth);
            Steps(fs, root, node, mount, names, true, two, flags, depth) ==
            if o.Found? && (fs.kind(o.node.inode).RegularFile? || (o.node.Root? && two)) then Failed(ENOENT, o.depth)
            else o
    decreases MAX_DEPTH - depth, |names|
  {
    hide Follow;
    if names != [] {
      if IsLink(fs, node) {
        var f := Follow(fs, root, node, flags, depth);
        if f.Found? { SlashedSteps(fs, root, f.node, f.mount, names, two, two', flags, f.depth); }
      } else if fs.enter(node.inode) && fs.kind(node.inode).Directory? {
        var h := Advance(fs, node, mount, names[0], |names| == 1, flags);
        AdvanceRooted(fs, root, node, mount, names[0], |names| == 1, flags);
        if h.Hop? { SlashedSteps(fs, root, h.node, h.mount, names[1..], two, two', flags, depth); }
      }
    }
  }
}
