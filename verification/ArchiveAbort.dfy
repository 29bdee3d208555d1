/** When the archive walk aborts, and what it has archived by then. */
module ArchiveAbort {
  import opened Common
  import opened Paths
  import opened FileTree
  import opened ArchiveWalk
  import opened ArchiveTheorems
  import opened ArchiveOrder

  /** The walk makes a call on this node that fails with an error it does not skip. */
  ghost predicate MeetsFatal(node: Node, path: Path, cfg: Config) {
    var rel := Relative(path, cfg.base);
    && !IsSystemMetadata(rel)
    && (|| node.stat.Fatal?
        || (&& node.stat.Clear? && Keep(cfg, path, node.Dir?)
            && match node
               case File(_, open, read, _, _) => open.Fatal? || (open.Clear? && read.Fatal?)
               case Link(_, append) => append.Fatal?
               case Dir(_, header, list, _) =>
                 (rel != [] && header.Fatal?) || ((rel == [] || header.Clear?) && list.Fatal?)))
  }

  /** The walk gets to the node at `q`, through directories that pass and can be listed, and fails there. */
  ghost predicate FatalAt(node: Node, path: Path, cfg: Config, q: Path)
    decreases q
  {
    if q == [] then MeetsFatal(node, path, cfg)
    else
      && Passable(node, path, cfg) && node.Dir? && node.list.Clear? && q[0] in node.children
      && FatalAt(node.children[q[0]], path + [q[0]], cfg, q[1..])
  }

  ghost predicate SomeFatal(node: Node, path: Path, cfg: Config) {
    exists q :: FatalAt(node, path, cfg, q)
  }

  ghost predicate FatalBelow(node: Node, path: Path, cfg: Config, n: Name)
    requires node.Dir?
  {
    n in node.children && SomeFatal(node.children[n], path + [n], cfg)
  }

  lemma SomeFatalStep(node: Node, path: Path, cfg: Config)
    ensures SomeFatal(node, path, cfg)
       <==> || MeetsFatal(node, path, cfg)
            || (&& Passable(node, path, cfg) && node.Dir? && node.list.Clear?
                && exists n :: FatalBelow(node, path, cfg, n))
  {
    hide MeetsFatal, Passable;
    if MeetsFatal(node, path, cfg) {
      assert FatalAt(node, path, cfg, []);
    }
    if Passable(node, path, cfg) && node.Dir? && node.list.Clear? {
      if n :| FatalBelow(node, path, cfg, n) {
        var q :| FatalAt(node.children[n], path + [n], cfg, q);
        assert ([n] + q)[1..] == q;
        assert FatalAt(node, path, cfg, [n] + q);
      }
    }
    if q :| FatalAt(node, path, cfg, q) && q != [] {
      assert FatalAt(node.children[q[0]], path + [q[0]], cfg, q[1..]);
      assert FatalBelow(node, path, cfg, q[0]);
    }
  }

  /** The walk returns an error exactly when it gets to a node that fails with an error it does not skip. */
  lemma {:induction false} WalkFailsIff(node: Node, path: Path, cfg: Config)
    requires Lists(cfg.listing, node, path)
    ensures Walk(node, path, cfg).ok <==> !SomeFatal(node, path, cfg)
    decreases node, 1, 0
  {
    hide Keep, SomeFatal, FatalBelow, WalkAll;
    SomeFatalStep(node, path, cfg);
    if node.Dir? && Passable(node, path, cfg) && node.list.Clear? {
      var names := SortNames(cfg.listing(path));
      SameMembers(names, cfg.listing(path));
      WalkAllFailsIff(node, path, names, cfg);
      assert forall n :: FatalBelow(node, path, cfg, n) ==> n in names by { InChildrenIfBelow(node, path, cfg); }
    }
  }

  lemma InChildrenIfBelow(node: Node, path: Path, cfg: Config)
    requires node.Dir?
    ensures forall n :: FatalBelow(node, path, cfg, n) ==> n in node.children
  {
  }

  lemma {:induction false} WalkAllFailsIff(node: Node, path: Path, names: seq<Name>, cfg: Config)
    requires node.Dir? && Lists(cfg.listing, node, path)
    ensures WalkAll(node, path, names, cfg).ok <==> forall n | n in names :: !FatalBelow(node, path, cfg, n)
    decreases node, 0, |names|
  {
    hide SomeFatal, Walk;
    if names != [] {
      var n := names[0];
      assert names == [n] + names[1..];
      WalkAllFailsIff(node, path, names[1..], cfg);
      if n in node.children {
        WalkFailsIff(node.children[n], path + [n], cfg);
        assert FatalBelow(node, path, cfg, n) <==> !Walk(node.children[n], path + [n], cfg).ok;
      }
      hide FatalBelow;
    }
  }

  // ----- What an aborted walk has archived

  /** No failure comes before the entry at `full` in path order. */
  ghost predicate NoFatalBefore(node: Node, path: Path, cfg: Config, full: Path) {
    forall q | FatalAt(node, path, cfg, q) :: !Before(path + q, full)
  }

  ghost predicate ChildSafe(node: Node, path: Path, cfg: Config, n: Name, full: Path)
    requires node.Dir?
  {
    n in node.children ==> NoFatalBefore(node.children[n], path + [n], cfg, full)
  }

  ghost predicate ChildEmits(node: Node, path: Path, cfg: Config, n: Name, e: Entry)
    requires node.Dir? && cfg.base <= path
  {
    n in node.children && IsEmission(node.children[n], path + [n], cfg, e)
  }

  lemma SiblingsInOrder(path: Path, n: Name, m: Name, a: Path, b: Path)
    requires Leq(n, m) && n != m
    ensures Before(path + [n] + a, path + [m] + b) && !Before(path + [m] + b, path + [n] + a)
  {
    assert path + [n] + a == path + ([n] + a) && path + [m] + b == path + ([m] + b);
    BeforeUnder(path, [n] + a, [m] + b);
    BeforeIrreflexive(path + [n] + a, path + [m] + b);
  }

  /** Nothing in a later child comes before what lies in child `n`. */
  lemma LaterChildSafe(node: Node, path: Path, cfg: Config, n: Name, m: Name, full: Path)
    requires node.Dir? && path + [n] <= full && Leq(n, m) && n != m
    ensures ChildSafe(node, path, cfg, m, full)
  {
    hide FatalAt, Before;
    forall q | m in node.children && FatalAt(node.children[m], path + [m], cfg, q)
      ensures !Before(path + [m] + q, full)
    {
      assert full == path + [n] + full[|path| + 1..];
      SiblingsInOrder(path, n, m, full[|path| + 1..], q);
    }
  }

  /** Every failure in an earlier child comes before what lies in child `m`. */
  lemma EarlierChildSafe(node: Node, path: Path, cfg: Config, n: Name, m: Name, full: Path)
    requires node.Dir? && path + [m] <= full && Leq(n, m) && n != m
    ensures ChildSafe(node, path, cfg, n, full) <==> !FatalBelow(node, path, cfg, n)
  {
    hide FatalAt, Before;
    forall q | n in node.children && FatalAt(node.children[n], path + [n], cfg, q)
      ensures Before(path + [n] + q, full)
    {
      assert full == path + [m] + full[|path| + 1..];
      SiblingsInOrder(path, n, m, q, full[|path| + 1..]);
    }
  }

  lemma {:induction false} AbortCutsChildren(node: Node, path: Path, names: seq<Name>, cfg: Config, e: Entry)
    requires cfg.base <= path && node.Dir? && Lists(cfg.listing, node, path)
    requires Sorted(names) && NoDup(names)
    ensures e in WalkAll(node, path, names, cfg).entries
       <==> && (exists n | n in names :: ChildEmits(node, path, cfg, n, e))
            && forall m | m in names :: ChildSafe(node, path, cfg, m, cfg.base + e.rel)
    decreases node, 0, |names|
  {
    hide Walk, IsEmission, NoFatalBefore, SomeFatal, Before;
    var full := cfg.base + e.rel;
    if names != [] {
      var n, tail := names[0], names[1..];
      assert names == [n] + tail;
      AbortCutsChildren(node, path, tail, cfg, e);
      if n in node.children {
        AbortKeepsPrefix(node.children[n], path + [n], cfg, e);
        WalkFailsIff(node.children[n], path + [n], cfg);
        if ChildEmits(node, path, cfg, n, e) {
          EmissionUnder(node, path, cfg, n, e);
          forall m | m in tail ensures ChildSafe(node, path, cfg, m, full) && !ChildEmits(node, path, cfg, m, e) {
            LaterChildSafe(node, path, cfg, n, m, full);
            if ChildEmits(node, path, cfg, m, e) {
              EmissionUnder(node, path, cfg, m, e);
            }
          }
        } else if m :| m in tail && ChildEmits(node, path, cfg, m, e) {
          EmissionUnder(node, path, cfg, m, e);
          EarlierChildSafe(node, path, cfg, n, m, full);
        }
      }
    }
  }

  lemma EmissionUnder(node: Node, path: Path, cfg: Config, n: Name, e: Entry)
    requires node.Dir? && cfg.base <= path && ChildEmits(node, path, cfg, n, e)
    ensures path + [n] <= cfg.base + e.rel && (cfg.base + e.rel)[|path|] == n
  {
  }

  /** Below a directory that passes and can be listed, emissions and failures are those of the children. */
  lemma BelowDirectory(node: Node, path: Path, cfg: Config, e: Entry)
    requires cfg.base <= path && node.Dir? && Passable(node, path, cfg) && node.list.Clear?
    ensures (exists n | n in node.children :: ChildEmits(node, path, cfg, n, e))
       <==> path != cfg.base + e.rel && IsEmission(node, path, cfg, e)
    ensures (forall m | m in node.children :: ChildSafe(node, path, cfg, m, cfg.base + e.rel))
       <==> NoFatalBefore(node, path, cfg, cfg.base + e.rel)
  {
    hide Passable, Reached, Before, MeetsFatal;
    var full := cfg.base + e.rel;
    NoFailureHere(node, path, cfg);
    forall n | n in node.children
      ensures ChildEmits(node, path, cfg, n, e) <==> path + [n] <= full && IsEmission(node, path, cfg, e)
    {
      EmissionBelow(node, path, cfg, e, n);
    }
    if path <= full && path != full && IsEmission(node, path, cfg, e) {
      ReachedStep(node, path, full[|path|..], cfg);
      assert ChildEmits(node, path, cfg, full[|path|], e);
    }
    if NoFatalBefore(node, path, cfg, full) {
      forall m, q | m in node.children && FatalAt(node.children[m], path + [m], cfg, q)
        ensures !Before(path + [m] + q, full)
      {
        assert ([m] + q)[1..] == q && path + ([m] + q) == path + [m] + q;
        assert FatalAt(node, path, cfg, [m] + q);
      }
    }
    if forall m | m in node.children :: ChildSafe(node, path, cfg, m, full) {
      forall q | FatalAt(node, path, cfg, q) ensures !Before(path + q, full) {
        assert ChildSafe(node, path, cfg, q[0], full);
        assert path + q == path + [q[0]] + q[1..];
      }
    }
  }

  lemma NoFailureHere(node: Node, path: Path, cfg: Config)
    requires node.Dir? && Passable(node, path, cfg) && node.list.Clear?
    ensures !MeetsFatal(node, path, cfg)
  {
  }

  /** A failure at or below `path` does not come before the entry of `path`. */
  lemma OwnEntrySafe(node: Node, path: Path, cfg: Config)
    ensures NoFatalBefore(node, path, cfg, path)
  {
    hide FatalAt;
    forall q ensures !Before(path + q, path) {
      assert path + [] == path;
      BeforeUnder(path, q, []);
    }
  }

  /**
   * Whatever fails: the archive holds exactly the entries of reached nodes that no failure comes before, so
   * an aborted archive is cut at the first failure in path order and complete up to it.
   */
  lemma {:induction false} AbortKeepsPrefix(node: Node, path: Path, cfg: Config, e: Entry)
    requires cfg.base <= path && Lists(cfg.listing, node, path)
    ensures e in Walk(node, path, cfg).entries
       <==> IsEmission(node, path, cfg, e) && NoFatalBefore(node, path, cfg, cfg.base + e.rel)
    decreases node, 1, 0
  {
    var full, rel := cfg.base + e.rel, Relative(path, cfg.base);
    assert path == cfg.base + rel && (full == path <==> e.rel == rel);
    OwnEntrySafe(node, path, cfg);
    if node.Dir? && Passable(node, path, cfg) && node.list.Clear? {
      var names := SortNames(cfg.listing(path));
      SameMembers(names, cfg.listing(path));
      SortKeepsNoDup(cfg.listing(path));
      AbortCutsChildren(node, path, names, cfg, e);
      BelowDirectory(node, path, cfg, e);
      hide ChildEmits, ChildSafe, NoFatalBefore;
      OwnEmission(node, path, cfg, e);
    } else {
      OwnEmission(node, path, cfg, e);
    }
  }

  lemma OwnEmission(node: Node, path: Path, cfg: Config, e: Entry)
    requires cfg.base <= path
    ensures cfg.base + e.rel == path ==>
              (IsEmission(node, path, cfg, e)
               <==> Passable(node, path, cfg) && e == EntryOf(node, e.rel) && e != DirEntry([]))
    ensures cfg.base + e.rel != path && IsEmission(node, path, cfg, e) ==>
              Passable(node, path, cfg) && node.Dir? && node.list.Clear?
  {
    hide Passable;
    var full := cfg.base + e.rel;
    if full == path {
      assert full[|path|..] == [] && path + [] == path && full[|path|..][..0] == [];
    } else if path <= full {
      ReachedStep(node, path, full[|path|..], cfg);
    }
  }

  /** Nothing at or below a top-level system directory is archived, whatever fails. */
  lemma MetadataSkipped(root: Node, cfg: Config, e: Entry)
    requires Lists(cfg.listing, root, cfg.base) && e in Walk(root, cfg.base, cfg).entries
    ensures e.rel == [] || !IsSystemMetadata([e.rel[0]])
  {
    hide Walk, Passable, NoFatalBefore;
    AbortKeepsPrefix(root, cfg.base, cfg, e);
    assert (cfg.base + e.rel)[|cfg.base|..] == e.rel;
    if e.rel != [] && IsSystemMetadata([e.rel[0]]) {
      MetadataNotReached(root, cfg, e.rel);
    }
  }
}
