/** What the archive contains, in which order, and independence of directory listing order. */
module ArchiveTheorems {
  import opened Common
  import opened Paths
  import opened Selection
  import opened FileTree
  import opened ArchiveWalk

  // ----- Which entries the walk emits

  /** The walk gets past the checks on one node. */
  ghost predicate Passable(node: Node, path: Path, cfg: Config) {
    var rel := Relative(path, cfg.base);
    && !IsSystemMetadata(rel)
    && node.stat.Clear?
    && Keep(cfg, path, node.Dir?)
    && match node
       case File(_, open, _, _, _) => open.Clear?
       case Link(_, append) => append.Clear?
       case Dir(_, header, _, _) => rel == [] || header.Clear?
  }

  /** Every node on the chain from `node` down to `q` passes, and the directories above `q` can be listed. */
  ghost predicate Reached(node: Node, path: Path, q: Path, cfg: Config) {
    && At(node, q).Some?
    && (forall k | 0 <= k <= |q| ::
          && At(node, q[..k]).Some?
          && Passable(At(node, q[..k]).value, path + q[..k], cfg)
          && (k < |q| ==> At(node, q[..k]).value.Dir? && At(node, q[..k]).value.list.Clear?))
  }

  lemma ReachedStep(node: Node, path: Path, q: Path, cfg: Config)
    requires q != []
    ensures Reached(node, path, q, cfg)
       <==> && Passable(node, path, cfg) && node.Dir? && node.list.Clear? && q[0] in node.children
            && Reached(node.children[q[0]], path + [q[0]], q[1..], cfg)
  {
    assert q[..0] == [] && path + [] == path;
    if node.Dir? && q[0] in node.children {
      var child := node.children[q[0]];
      forall k | 0 <= k <= |q[1..]|
        ensures At(child, q[1..][..k]) == At(node, q[..k + 1])
        ensures path + [q[0]] + q[1..][..k] == path + q[..k + 1]
      {
        assert q[..k + 1] == [q[0]] + q[1..][..k];
      }
      if Reached(child, path + [q[0]], q[1..], cfg) && Passable(node, path, cfg) && node.list.Clear? {
        forall k | 0 < k <= |q|
          ensures At(node, q[..k]).Some? && Passable(At(node, q[..k]).value, path + q[..k], cfg)
          ensures k < |q| ==> At(node, q[..k]).value.Dir? && At(node, q[..k]).value.list.Clear?
        {
          assert At(child, q[1..][..k - 1]) == At(node, q[..k]);
        }
      }
      if Reached(node, path, q, cfg) {
        assert Passable(At(node, q[..0]).value, path + q[..0], cfg);
        forall k | 0 <= k <= |q[1..]|
          ensures At(child, q[1..][..k]).Some?
                 && Passable(At(child, q[1..][..k]).value, path + [q[0]] + q[1..][..k], cfg)
          ensures k < |q[1..]| ==> At(child, q[1..][..k]).value.Dir? && At(child, q[1..][..k]).value.list.Clear?
        {
          assert At(child, q[1..][..k]) == At(node, q[..k + 1]);
        }
      }
    }
  }

  /** `e` is the entry of a reached node at or below `path`; the source root itself gets no entry. */
  ghost predicate IsEmission(node: Node, path: Path, cfg: Config, e: Entry)
    requires cfg.base <= path
  {
    var full := cfg.base + e.rel;
    && path <= full
    && Reached(node, path, full[|path|..], cfg)
    && e == EntryOf(At(node, full[|path|..]).value, e.rel)
    && e != DirEntry([])
  }

  lemma {:induction false} WalkRunsToEnd(node: Node, path: Path, cfg: Config)
    requires NoFatal(node)
    ensures Walk(node, path, cfg).ok
    decreases node, 1, 0
  {
    if node.Dir? {
      WalkAllRunsToEnd(node, path, SortNames(cfg.listing(path)), cfg);
    }
  }

  lemma {:induction false} WalkAllRunsToEnd(node: Node, path: Path, names: seq<Name>, cfg: Config)
    requires node.Dir? && NoFatal(node)
    ensures WalkAll(node, path, names, cfg).ok
    decreases node, 0, |names|
  {
    if names != [] {
      if names[0] in node.children {
        WalkRunsToEnd(node.children[names[0]], path + [names[0]], cfg);
      }
      WalkAllRunsToEnd(node, path, names[1..], cfg);
    }
  }

  ghost predicate InSomeChild(node: Node, path: Path, names: seq<Name>, cfg: Config, e: Entry)
    requires node.Dir?
  {
    exists n | n in names :: n in node.children && e in Walk(node.children[n], path + [n], cfg).entries
  }

  lemma {:induction false} WalkAllMembers(node: Node, path: Path, names: seq<Name>, cfg: Config, e: Entry)
    requires node.Dir? && NoFatal(node)
    ensures e in WalkAll(node, path, names, cfg).entries <==> InSomeChild(node, path, names, cfg, e)
    decreases |names|
  {
    if names != [] {
      WalkAllMembers(node, path, names[1..], cfg, e);
      assert names == [names[0]] + names[1..];
      if names[0] in node.children {
        WalkRunsToEnd(node.children[names[0]], path + [names[0]], cfg);
      }
    }
  }

  /** The walk emits the entry of a node exactly when every node on its chain passes. */
  lemma {:induction false} WalkEmits(node: Node, path: Path, cfg: Config, e: Entry)
    requires cfg.base <= path && NoFatal(node) && Lists(cfg.listing, node, path)
    ensures e in Walk(node, path, cfg).entries <==> IsEmission(node, path, cfg, e)
    decreases node
  {
    var rel := Relative(path, cfg.base);
    var full := cfg.base + e.rel;
    assert path == cfg.base + rel;
    if path <= full {
      var q := full[|path|..];
      assert full == path + q;
      if q == [] {
        assert q[..0] == [];
        assert path + [] == path;
        assert Reached(node, path, q, cfg) <==> Passable(node, path, cfg);
        assert e.rel == rel;
      } else {
        ReachedStep(node, path, q, cfg);
        assert e.rel != rel;
      }
    } else {
      assert e.rel == rel ==> full == path;
    }
    if node.Dir? && Passable(node, path, cfg) && node.list.Clear? {
      var names := SortNames(cfg.listing(path));
      SameMembers(names, cfg.listing(path));
      WalkAllMembers(node, path, names, cfg, e);
      ChildEmission(node, path, cfg, e);
    }
  }

  /** Passing to a child keeps what is an emission at or below that child. */
  lemma EmissionBelow(node: Node, path: Path, cfg: Config, e: Entry, n: Name)
    requires cfg.base <= path && node.Dir? && Passable(node, path, cfg) && node.list.Clear? && n in node.children
    ensures IsEmission(node.children[n], path + [n], cfg, e)
       <==> path + [n] <= cfg.base + e.rel && IsEmission(node, path, cfg, e)
  {
    hide Passable, Reached;
    var full := cfg.base + e.rel;
    if path + [n] <= full {
      assert path <= path + [n];
      var q := full[|path|..];
      assert q[0] == n && q[1..] == full[|path + [n]|..];
      ReachedStep(node, path, q, cfg);
    }
  }

  lemma {:induction false} ChildEmission(node: Node, path: Path, cfg: Config, e: Entry)
    requires cfg.base <= path && NoFatal(node) && Lists(cfg.listing, node, path)
    requires node.Dir? && Passable(node, path, cfg) && node.list.Clear?
    ensures (exists n | n in node.children :: e in Walk(node.children[n], path + [n], cfg).entries)
       <==> path <= cfg.base + e.rel && path != cfg.base + e.rel && IsEmission(node, path, cfg, e)
    decreases node, 0
  {
    hide Walk, Passable, Reached;
    var full := cfg.base + e.rel;
    forall n | n in node.children
      ensures e in Walk(node.children[n], path + [n], cfg).entries
         <==> path + [n] <= full && IsEmission(node, path, cfg, e)
    {
      WalkEmits(node.children[n], path + [n], cfg, e);
      EmissionBelow(node, path, cfg, e, n);
    }
    if path <= full && path != full && IsEmission(node, path, cfg, e) {
      var n := full[|path|];
      ReachedStep(node, path, full[|path|..], cfg);
      assert n in node.children && path + [n] <= full;
    }
  }

  // ----- Pruning equals filtering

  /** An entry for `q` is in the archive. */
  ghost predicate Archived(root: Node, cfg: Config, q: Path) {
    exists e | e in Walk(root, cfg.base, cfg).entries :: e.rel == q
  }

  lemma ArchivedIffReached(root: Node, cfg: Config, q: Path)
    requires root.Dir? && NoFatal(root) && Lists(cfg.listing, root, cfg.base) && q != []
    ensures Archived(root, cfg, q) <==> Reached(root, cfg.base, q, cfg)
  {
    var full := cfg.base + q;
    assert full[|cfg.base|..] == q;
    if At(root, q).Some? {
      WalkEmits(root, cfg.base, cfg, EntryOf(At(root, q).value, q));
    }
    if e :| e in Walk(root, cfg.base, cfg).entries && e.rel == q {
      WalkEmits(root, cfg.base, cfg, e);
    }
  }

  /** A directory is not pruned by a glob: none hits it, or a checked path lies at or below it. */
  ghost predicate SurvivesGlobs(sel: ArchiveSelection, dir: Path, base: Path) {
    GlobHit(sel, dir, base) ==> HasIncludedBelow(sel, dir)
  }

  lemma MarkBelow(sel: ArchiveSelection, p: Path, k: nat, m: nat)
    requires k <= m <= |p| && p[..m] in sel.included
    ensures HasIncludedBelow(sel, p[..k])
  {
    assert p[..k] <= p[..m];
  }

  /** A directory above a selected path is kept exactly when the globs do not prune it. */
  lemma AncestorKept(cfg: Config, p: Path, k: nat)
    requires cfg.selection.Some? && Selected(cfg.selection.value, p, cfg.base) && k <= |p|
    ensures Keep(cfg, p[..k], true) <==> SurvivesGlobs(cfg.selection.value, p[..k], cfg.base)
  {
    var sel, a := cfg.selection.value, p[..k];
    if !GlobHit(sel, a, cfg.base) && !HasIncludedBelow(sel, a) {
      assert forall j | 0 <= j <= k :: a[..j] == p[..j];
      if sel.included != {} {
        var m :| 0 <= m <= |p| && NearestMark(sel, p, m) && p[..m] in sel.included && p[..m] !in sel.excluded;
        if k <= m {
          MarkBelow(sel, p, k, m);
        }
        assert NearestMark(sel, a, m) && a[..m] in sel.included;
      }
    }
  }

  /** Whether the node at the prefix of length `k` is a directory, when the one at `q` is one if `isDir`. */
  predicate DirOnChain(q: Path, k: nat, isDir: bool) {
    k < |q| || isDir
  }

  /** On an error-free tree a node outside the system metadata is reached when its whole chain is kept. */
  lemma CleanChain(root: Node, cfg: Config, q: Path)
    requires ErrorFree(root) && At(root, q).Some? && !IsSystemMetadata(q)
    ensures Reached(root, cfg.base, q, cfg)
       <==> forall k | 0 <= k <= |q| :: Keep(cfg, cfg.base + q[..k], DirOnChain(q, k, At(root, q).value.Dir?))
  {
    forall k | 0 <= k <= |q|
      ensures At(root, q[..k]).Some?
      ensures k < |q| ==> At(root, q[..k]).value.Dir? && At(root, q[..k]).value.list.Clear?
      ensures Passable(At(root, q[..k]).value, cfg.base + q[..k], cfg)
         <==> Keep(cfg, cfg.base + q[..k], DirOnChain(q, k, At(root, q).value.Dir?))
    {
      CleanNode(root, cfg, q, k);
    }
  }

  lemma CleanNode(root: Node, cfg: Config, q: Path, k: nat)
    requires ErrorFree(root) && At(root, q).Some? && !IsSystemMetadata(q) && k <= |q|
    ensures At(root, q[..k]).Some?
    ensures k < |q| ==> At(root, q[..k]).value.Dir? && At(root, q[..k]).value.list.Clear?
    ensures Passable(At(root, q[..k]).value, cfg.base + q[..k], cfg)
       <==> Keep(cfg, cfg.base + q[..k], DirOnChain(q, k, At(root, q).value.Dir?))
  {
    AtPrefix(root, q, k);
    assert k == |q| ==> q[..k] == q;
    ErrorFreeAt(root, q[..k]);
    assert Relative(cfg.base + q[..k], cfg.base) == q[..k];
    assert !IsSystemMetadata(q[..k]);
  }

  /** The whole chain down to `q` is kept when `q` is selected and no directory above it is pruned. */
  lemma ChainKept(cfg: Config, q: Path)
    requires cfg.selection.Some?
    ensures (forall k | 0 <= k <= |q| :: Keep(cfg, cfg.base + q[..k], DirOnChain(q, k, false)))
       <==> && Selected(cfg.selection.value, cfg.base + q, cfg.base)
            && forall k | 0 <= k < |q| :: SurvivesGlobs(cfg.selection.value, cfg.base + q[..k], cfg.base)
  {
    hide Selected, SurvivesGlobs;
    var p := cfg.base + q;
    assert q[..|q|] == q;
    assert Keep(cfg, cfg.base + q[..|q|], false) <==> Selected(cfg.selection.value, p, cfg.base);
    if Selected(cfg.selection.value, p, cfg.base) {
      forall k | 0 <= k < |q|
        ensures Keep(cfg, cfg.base + q[..k], true) <==> SurvivesGlobs(cfg.selection.value, cfg.base + q[..k], cfg.base)
      {
        assert p[..|cfg.base| + k] == cfg.base + q[..k];
        AncestorKept(cfg, p, |cfg.base| + k);
      }
    }
  }

  /**
   * The pruning walk archives a file exactly when it is outside the system metadata and, if there is a
   * selection, the selection includes it and the globs prune no directory above it.
   */
  lemma PruningEqualsFiltering(root: Node, cfg: Config, q: Path)
    requires root.Dir? && ErrorFree(root) && Lists(cfg.listing, root, cfg.base)
    requires At(root, q).Some? && At(root, q).value.File?
    ensures Archived(root, cfg, q)
       <==> && !IsSystemMetadata(q)
            && (cfg.selection.Some? ==>
                  && Selected(cfg.selection.value, cfg.base + q, cfg.base)
                  && forall k | 0 <= k < |q| :: SurvivesGlobs(cfg.selection.value, cfg.base + q[..k], cfg.base))
  {
    ErrorFreeNoFatal(root);
    ArchivedIffReached(root, cfg, q);
    if IsSystemMetadata(q) {
      MetadataNotReached(root, cfg, q);
    } else {
      CleanChain(root, cfg, q);
      hide Reached, Selected, SurvivesGlobs, Archived;
      if cfg.selection.Some? {
        hide Keep;
        ChainKept(cfg, q);
      }
    }
  }

  /** Some checked path is `p` itself or extends it. */
  lemma IncludedBelow(sel: ArchiveSelection, p: Path)
    ensures HasIncludedBelow(sel, p) <==> exists r: Path :: p + r in sel.included
  {
    if inc :| inc in sel.included && p <= inc {
      assert p + inc[|p|..] == inc;
    }
    if r: Path :| p + r in sel.included {
      assert p <= p + r;
    }
  }

  /** The chain down to a directory is kept when a path is checked at or below it, or as for a file. */
  lemma DirChainKept(cfg: Config, q: Path)
    requires cfg.selection.Some?
    ensures (forall k | 0 <= k <= |q| :: Keep(cfg, cfg.base + q[..k], DirOnChain(q, k, true)))
       <==> || HasIncludedBelow(cfg.selection.value, cfg.base + q)
            || (&& Selected(cfg.selection.value, cfg.base + q, cfg.base)
                && forall k | 0 <= k < |q| :: SurvivesGlobs(cfg.selection.value, cfg.base + q[..k], cfg.base))
  {
    hide Selected, SurvivesGlobs;
    var sel := cfg.selection.value;
    assert q[..|q|] == q;
    if inc :| inc in sel.included && cfg.base + q <= inc {
      forall k | 0 <= k <= |q| ensures HasIncludedBelow(sel, cfg.base + q[..k]) {
        assert cfg.base + q[..k] <= cfg.base + q <= inc;
      }
    } else {
      assert Keep(cfg, cfg.base + q[..|q|], true) <==> Selected(sel, cfg.base + q, cfg.base);
      ChainKept(cfg, q);
    }
  }

  /**
   * A directory is archived exactly when it is outside the system metadata and, if there is a selection,
   * a path is checked at or below it, or the selection includes it and the globs prune no directory above.
   */
  lemma DirectoriesArchived(root: Node, cfg: Config, q: Path)
    requires root.Dir? && ErrorFree(root) && Lists(cfg.listing, root, cfg.base)
    requires q != [] && At(root, q).Some? && At(root, q).value.Dir?
    ensures Archived(root, cfg, q)
       <==> && !IsSystemMetadata(q)
            && (cfg.selection.Some? ==>
                  || (exists r: Path :: cfg.base + q + r in cfg.selection.value.included)
                  || (&& Selected(cfg.selection.value, cfg.base + q, cfg.base)
                      && forall k | 0 <= k < |q| ::
                           SurvivesGlobs(cfg.selection.value, cfg.base + q[..k], cfg.base)))
  {
    ErrorFreeNoFatal(root);
    ArchivedIffReached(root, cfg, q);
    if IsSystemMetadata(q) {
      MetadataNotReached(root, cfg, q);
    } else {
      CleanChain(root, cfg, q);
      hide Reached, Selected, SurvivesGlobs, Archived;
      if cfg.selection.Some? {
        hide Keep, HasIncludedBelow;
        DirChainKept(cfg, q);
        IncludedBelow(cfg.selection.value, cfg.base + q);
      }
    }
  }

  /** The first component below the source root alone decides what is system metadata. */
  lemma MetadataByFirstName(rel: Path)
    ensures IsSystemMetadata(rel)
       <==> rel != [] && rel[0] in {
              ".Spotlight-V100", ".fseventsd", ".Trashes", ".TemporaryItems", ".DocumentRevisions-V100",
              ".HFS+ Private Directory Data\r", ".HFS+ Private Data", ".vol", "System Volume Information",
              "$RECYCLE.BIN"}
  {
  }

  lemma MetadataNotReached(root: Node, cfg: Config, q: Path)
    requires IsSystemMetadata(q)
    ensures !Reached(root, cfg.base, q, cfg)
  {
    assert q[..|q|] == q && Relative(cfg.base + q, cfg.base) == q;
  }

  /** The globs match a path below a directory whenever they match the directory. */
  ghost predicate GlobsInherited(sel: ArchiveSelection) {
    sel.globs.Some? ==> forall rel: Path, k: nat | k <= |rel| :: sel.globs.value(rel[..k]) ==> sel.globs.value(rel)
  }

  /** With no globs, or globs that descendants inherit, the walk is the filter. */
  lemma WalkIsFilter(root: Node, cfg: Config, q: Path)
    requires root.Dir? && ErrorFree(root) && Lists(cfg.listing, root, cfg.base)
    requires cfg.selection.Some? && GlobsInherited(cfg.selection.value)
    requires At(root, q).Some? && At(root, q).value.File?
    ensures Archived(root, cfg, q)
       <==> !IsSystemMetadata(q) && Selected(cfg.selection.value, cfg.base + q, cfg.base)
  {
    PruningEqualsFiltering(root, cfg, q);
    var sel := cfg.selection.value;
    assert Relative(cfg.base + q, cfg.base) == q;
    forall k | 0 <= k < |q|
      ensures GlobHit(sel, cfg.base + q[..k], cfg.base) ==> GlobHit(sel, cfg.base + q, cfg.base)
    {
      assert Relative(cfg.base + q[..k], cfg.base) == q[..k];
    }
  }

  /** `q` is a file of an error-free tree, outside the system metadata, and the selection includes it. */
  ghost predicate SelectedFile(root: Node, cfg: Config, q: Path) {
    && root.Dir? && ErrorFree(root) && Lists(cfg.listing, root, cfg.base)
    && At(root, q).Some? && At(root, q).value.File? && !IsSystemMetadata(q)
    && cfg.selection.Some? && Selected(cfg.selection.value, cfg.base + q, cfg.base)
  }

  /** A glob that matches a directory but not its file: the filter keeps the file and the walk prunes it. */
  lemma GlobCanPruneSelectedFile() returns (root: Node, cfg: Config, q: Path)
    ensures SelectedFile(root, cfg, q) && !Archived(root, cfg, q)
  {
    var file := File(Clear, Clear, Clear, [], 0);
    root := TwoLevelTree("build", "x", file);
    cfg := Config([], Some(ArchiveSelection({}, {}, Some((rel: Path) => rel == ["build"]))),
                  (p: Path) => if p == [] then ["build"] else ["x"]);
    q := ["build", "x"];
    TwoLevelTreeFacts("build", "x", file, cfg.listing);
    BuildIsNoMetadata();
    ExampleSelection(cfg.selection.value);
    PruningEqualsFiltering(root, cfg, q);
    assert !SurvivesGlobs(cfg.selection.value, cfg.base + q[..1], cfg.base);
  }

  lemma ExampleSelection(sel: ArchiveSelection)
    requires sel.included == {} && sel.excluded == {} && sel.globs.Some?
    requires sel.globs.value(["build"]) && !sel.globs.value(["build", "x"])
    ensures Selected(sel, [] + ["build", "x"], []) && !SurvivesGlobs(sel, [] + ["build", "x"][..1], [])
  {
    assert [] + ["build", "x"] == ["build", "x"] && Relative(["build", "x"], []) == ["build", "x"];
    assert [] + ["build", "x"][..1] == ["build"] && Relative(["build"], []) == ["build"];
  }

  lemma BuildIsNoMetadata()
    ensures "build" !in SYSTEM_METADATA_DIRS
  {
    forall i | 0 <= i < |SYSTEM_METADATA_DIRS| ensures SYSTEM_METADATA_DIRS[i][0] != 'b' {
    }
  }
}
