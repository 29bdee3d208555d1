/** The explicit-stack pre-walk `precompute_total_bytes`, and how its total relates to the archive. */
module TotalWalk {
  import opened Common
  import opened Paths
  import opened FileTree
  import opened ArchiveWalk
  import opened ArchiveTheorems
  import opened ArchiveAbort

  /** What the pre-walk counts below a node: a stat error skips it, a listing error hides its children. */
  ghost function Total(node: Node, path: Path, cfg: Config): nat
    decreases node, 1, 0
  {
    if IsSystemMetadata(Relative(path, cfg.base)) || !node.stat.Clear? || !Keep(cfg, path, node.Dir?) then 0
    else match node
      case Dir(_, _, list, _) => if list.Clear? then TotalAll(node, path, cfg.listing(path), cfg) else 0
      case Link(_, _) => 0
      case File(_, _, _, content, _) => |content|
  }

  ghost function TotalOf(node: Node, path: Path, n: Name, cfg: Config): nat
    requires node.Dir?
    decreases node, 0, 0
  {
    if n in node.children then Total(node.children[n], path + [n], cfg) else 0
  }

  ghost function TotalAll(node: Node, path: Path, names: seq<Name>, cfg: Config): nat
    requires node.Dir?
    decreases node, 0, |names| + 1
  {
    if names == [] then 0
    else TotalOf(node, path, names[0], cfg) + TotalAll(node, path, names[1..], cfg)
  }

  // ----- The stack loop

  /** The number of paths the pre-walk visits at or below `path`; a bound on its work. */
  ghost function Visits(node: Node, path: Path, cfg: Config): nat
    decreases node, 1, 0
  {
    1 + if node.Dir? then VisitsAll(node, path, cfg.listing(path), cfg) else 0
  }

  ghost function VisitsAll(node: Node, path: Path, names: seq<Name>, cfg: Config): nat
    requires node.Dir?
    decreases node, 0, |names|
  {
    if names == [] then 0
    else (if names[0] in node.children then Visits(node.children[names[0]], path + [names[0]], cfg) else 1)
         + VisitsAll(node, path, names[1..], cfg)
  }

  /** The node a stacked path names; `None` when `symlink_metadata` would not find it. */
  function Stat(root: Node, p: Path, cfg: Config): Option<Node> {
    if cfg.base <= p then At(root, p[|cfg.base|..]) else None
  }

  ghost function StackTotal(root: Node, stack: seq<Path>, cfg: Config): nat {
    if stack == [] then 0
    else
      var p := stack[|stack| - 1];
      var n := Stat(root, p, cfg);
      (if n.Some? then Total(n.value, p, cfg) else 0) + StackTotal(root, stack[..|stack| - 1], cfg)
  }

  ghost function StackVisits(root: Node, stack: seq<Path>, cfg: Config): nat {
    if stack == [] then 0
    else
      var p := stack[|stack| - 1];
      var n := Stat(root, p, cfg);
      (if n.Some? then Visits(n.value, p, cfg) else 1) + StackVisits(root, stack[..|stack| - 1], cfg)
  }

  lemma {:induction false} AtChild(root: Node, q: Path, n: Name)
    requires At(root, q).Some?
    ensures At(root, q + [n])
         == (var d := At(root, q).value; if d.Dir? && n in d.children then Some(d.children[n]) else None)
    decreases q
  {
    if q == [] {
      assert (q + [n])[1..] == [];
    } else {
      AtChild(root.children[q[0]], q[1..], n);
      assert (q + [n])[1..] == q[1..] + [n];
    }
  }

  function Extend(path: Path, names: seq<Name>): (r: seq<Path>)
    ensures |r| == |names|
  {
    seq(|names|, i requires 0 <= i < |names| => path + [names[i]])
  }

  /** Pushing the entries of a directory adds their totals and visits to the stack's. */
  lemma {:induction false} PushChildren(root: Node, stack: seq<Path>, p: Path, names: seq<Name>, cfg: Config)
    requires Stat(root, p, cfg).Some? && Stat(root, p, cfg).value.Dir?
    ensures StackTotal(root, stack + Extend(p, names), cfg)
         == StackTotal(root, stack, cfg) + TotalAll(Stat(root, p, cfg).value, p, names, cfg)
    ensures StackVisits(root, stack + Extend(p, names), cfg)
         == StackVisits(root, stack, cfg) + VisitsAll(Stat(root, p, cfg).value, p, names, cfg)
    decreases |names|
  {
    if names == [] {
      assert stack + Extend(p, names) == stack;
    } else {
      var child := p + [names[0]];
      var pushed := stack + [child];
      assert pushed[..|pushed| - 1] == stack;
      assert stack + Extend(p, names) == pushed + Extend(p, names[1..]);
      assert child[|cfg.base|..] == p[|cfg.base|..] + [names[0]];
      AtChild(root, p[|cfg.base|..], names[0]);
      PushChildren(root, pushed, p, names[1..], cfg);
    }
  }

  /** `precompute_total_bytes`: pops a path, skips it or adds to the total or pushes its entries. */
  method PrecomputeTotalBytes(root: Node, cfg: Config) returns (total: nat)
    ensures total == Total(root, cfg.base, cfg)
  {
    total := 0;
    var stack: seq<Path> := [cfg.base];
    assert stack[..0] == [] && cfg.base[|cfg.base|..] == [];
    while stack != []
      invariant total + StackTotal(root, stack, cfg) == Total(root, cfg.base, cfg)
      decreases StackVisits(root, stack, cfg)
    {
      var p := stack[|stack| - 1];
      stack := stack[..|stack| - 1];
      var rel := Relative(p, cfg.base);
      if IsSystemMetadata(rel) {
        continue;
      }
      var meta := Stat(root, p, cfg);
      if meta.None? || !meta.value.stat.Clear? {
        continue;
      }
      var keep := ShouldKeep(cfg, p, meta.value.Dir?);
      if !keep {
        continue;
      }
      if meta.value.Dir? {
        if meta.value.list.Clear? {
          PushChildren(root, stack, p, cfg.listing(p), cfg);
          stack := PushAll(stack, p, cfg.listing(p));
        }
      } else if !meta.value.Link? {
        total := total + |meta.value.content|;
      }
    }
  }

  /** `for e in rd.flatten() { stack.push(e.path()) }`. */
  method PushAll(stack: seq<Path>, p: Path, names: seq<Name>) returns (r: seq<Path>)
    ensures r == stack + Extend(p, names)
  {
    r := stack;
    for i := 0 to |names|
      invariant r == stack + Extend(p, names[..i])
    {
      assert Extend(p, names[..i + 1]) == Extend(p, names[..i]) + [p + [names[i]]];
      r := r + [p + [names[i]]];
    }
    assert names[..|names|] == names;
  }

  // ----- The total against the archived bytes

  lemma {:induction false} TotalAllRemove(node: Node, path: Path, names: seq<Name>, i: nat, cfg: Config)
    requires node.Dir? && i < |names|
    ensures TotalAll(node, path, names, cfg)
         == TotalOf(node, path, names[i], cfg) + TotalAll(node, path, names[..i] + names[i + 1..], cfg)
    decreases |names|
  {
    if i == 0 {
      assert names[..0] + names[1..] == names[1..];
    } else {
      TotalAllRemove(node, path, names[1..], i - 1, cfg);
      var rest := names[..i] + names[i + 1..];
      assert rest[1..] == names[1..][..i - 1] + names[1..][i..];
    }
  }

  lemma RemoveOne(s: seq<Name>, i: nat)
    requires i < |s|
    ensures multiset(s[..i] + s[i + 1..]) == multiset(s) - multiset{s[i]}
  {
    assert s == s[..i] + [s[i]] + s[i + 1..];
  }

  lemma RemoveHead(s: seq<Name>)
    requires s != []
    ensures multiset(s[1..]) == multiset(s) - multiset{s[0]}
  {
    assert s == [s[0]] + s[1..];
  }

  /** The tail of one listing is the other without one occurrence of the head. */
  lemma MatchHead(a: seq<Name>, b: seq<Name>) returns (i: nat)
    requires multiset(a) == multiset(b) && a != []
    ensures i < |b| && b[i] == a[0] && multiset(a[1..]) == multiset(b[..i] + b[i + 1..])
  {
    assert a[0] in multiset(b);
    i :| 0 <= i < |b| && b[i] == a[0];
    RemoveHead(a);
    RemoveOne(b, i);
  }

  /** A sum over a directory does not depend on the order of its entries. */
  lemma {:induction false} TotalAllPermuted(node: Node, path: Path, a: seq<Name>, b: seq<Name>, cfg: Config)
    requires node.Dir? && multiset(a) == multiset(b)
    ensures TotalAll(node, path, a, cfg) == TotalAll(node, path, b, cfg)
    decreases |a|
  {
    if a == [] {
      assert |multiset(b)| == 0;
    } else {
      var i := MatchHead(a, b);
      TotalAllRemove(node, path, b, i, cfg);
      TotalAllPermuted(node, path, a[1..], b[..i] + b[i + 1..], cfg);
    }
  }

  /** The walk never streams more than the pre-walk total, and exactly the total when nothing fails. */
  lemma {:induction false} StreamedWithinTotal(node: Node, path: Path, cfg: Config)
    ensures |Contents(Walk(node, path, cfg).entries)| <= Total(node, path, cfg)
    ensures ErrorFree(node) ==> |Contents(Walk(node, path, cfg).entries)| == Total(node, path, cfg)
    decreases node, 1, 0
  {
    ContentsNone();
    hide Keep, WalkAll, TotalAll, Contents;
    var rel := Relative(path, cfg.base);
    match node {
      case Dir(_, _, _, _) =>
        var names := SortNames(cfg.listing(path));
        TotalAllPermuted(node, path, names, cfg.listing(path), cfg);
        ChildrenWithinTotal(node, path, names, cfg);
        ContentsAppend([DirEntry(rel)], WalkAll(node, path, names, cfg).entries);
        ContentsOne(DirEntry(rel));
        assert [] + WalkAll(node, path, names, cfg).entries == WalkAll(node, path, names, cfg).entries;
      case Link(_, _) =>
        ContentsOne(LinkEntry(rel));
      case File(_, _, _, _, _) =>
        ContentsOne(FileEntry(rel, Streamed(node)));
    }
  }

  lemma {:induction false} ChildrenWithinTotal(node: Node, path: Path, names: seq<Name>, cfg: Config)
    requires node.Dir?
    ensures |Contents(WalkAll(node, path, names, cfg).entries)| <= TotalAll(node, path, names, cfg)
    ensures ErrorFree(node) ==>
              |Contents(WalkAll(node, path, names, cfg).entries)| == TotalAll(node, path, names, cfg)
    decreases node, 0, |names|
  {
    if names != [] {
      ChildrenWithinTotal(node, path, names[1..], cfg);
      if names[0] in node.children {
        var child := node.children[names[0]];
        StreamedWithinTotal(child, path + [names[0]], cfg);
        if ErrorFree(node) {
          ErrorFreeNoFatal(child);
          WalkRunsToEnd(child, path + [names[0]], cfg);
        }
        ContentsAppend(Walk(child, path + [names[0]], cfg).entries, WalkAll(node, path, names[1..], cfg).entries);
      }
    }
  }

  // ----- The total, exactly

  function Skip(f: Fault): Fault {
    if f.Clear? then Clear else Skippable
  }

  /** The tree without the faults the pre-walk makes no calls for, where the faults it meets can be skipped. */
  function Mended(node: Node): Node {
    match node
    case File(stat, _, _, content, readable) => File(Skip(stat), Clear, Clear, content, readable)
    case Link(stat, _) => Link(Skip(stat), Clear)
    case Dir(stat, _, list, children) =>
      Dir(Skip(stat), Clear, Skip(list), map n | n in children :: Mended(children[n]))
  }

  /** For every tree the announced total is what the walk would stream if opening and reading never failed. */
  lemma {:induction false} TotalIsMendedStream(node: Node, path: Path, cfg: Config)
    ensures Walk(Mended(node), path, cfg).ok
    ensures |Contents(Walk(Mended(node), path, cfg).entries)| == Total(node, path, cfg)
    decreases node, 1, 0
  {
    ContentsNone();
    hide Keep, WalkAll, TotalAll, Contents;
    var rel := Relative(path, cfg.base);
    match node {
      case Dir(_, _, _, _) =>
        var names := SortNames(cfg.listing(path));
        TotalAllPermuted(node, path, names, cfg.listing(path), cfg);
        MendedChildren(node, path, names, cfg);
        var rest := WalkAll(Mended(node), path, names, cfg).entries;
        ContentsAppend([DirEntry(rel)], rest);
        ContentsOne(DirEntry(rel));
        assert [] + rest == rest;
      case Link(_, _) =>
        ContentsOne(LinkEntry(rel));
      case File(_, _, _, content, _) =>
        ContentsOne(FileEntry(rel, content));
    }
  }

  lemma {:induction false} MendedChildren(node: Node, path: Path, names: seq<Name>, cfg: Config)
    requires node.Dir?
    ensures WalkAll(Mended(node), path, names, cfg).ok
    ensures |Contents(WalkAll(Mended(node), path, names, cfg).entries)| == TotalAll(node, path, names, cfg)
    decreases node, 0, |names|
  {
    if names != [] {
      MendedChildren(node, path, names[1..], cfg);
      if names[0] in node.children {
        var child := node.children[names[0]];
        TotalIsMendedStream(child, path + [names[0]], cfg);
        ContentsAppend(Walk(Mended(child), path + [names[0]], cfg).entries,
                       WalkAll(Mended(node), path, names[1..], cfg).entries);
      }
    }
  }

  /**
   * `do_archive` after the source is resolved: the announced total, then the walk. The worker's count
   * is the length of the hashed stream, never passes the announced total and meets it when no call fails.
   * The worker fails exactly when the walk gets to an error it does not skip.
   */
  method ArchiveTree(root: Node, cfg: Config) returns (announced: nat, ok: bool, sink: Sink)
    ensures fresh(sink) && sink.entries == Walk(root, cfg.base, cfg).entries && ok == Walk(root, cfg.base, cfg).ok
    ensures sink.hashed == Contents(sink.entries) && sink.bytesIn == |sink.hashed| <= announced
    ensures ErrorFree(root) ==> ok && sink.bytesIn == announced
    ensures Lists(cfg.listing, root, cfg.base) ==> (ok <==> !SomeFatal(root, cfg.base, cfg))
  {
    announced := PrecomputeTotalBytes(root, cfg);
    sink := new Sink();
    ok := WalkAndArchive(root, cfg.base, cfg, sink);
    hide Walk, SomeFatal;
    StreamedWithinTotal(root, cfg.base, cfg);
    if ErrorFree(root) {
      ErrorFreeNoFatal(root);
      WalkRunsToEnd(root, cfg.base, cfg);
    }
    if Lists(cfg.listing, root, cfg.base) {
      WalkFailsIff(root, cfg.base, cfg);
    }
  }
}
