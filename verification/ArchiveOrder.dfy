/** The order of archive entries, and independence of the order directories are listed in. */
module ArchiveOrder {
  import opened Common
  import opened Paths
  import opened FileTree
  import opened ArchiveWalk
  import opened ArchiveTheorems

  /** Component-wise order on paths: a directory comes before everything in it. */
  ghost predicate Before(a: Path, b: Path) {
    b != [] && (a == [] || (a[0] != b[0] && Leq(a[0], b[0])) || (a[0] == b[0] && Before(a[1..], b[1..])))
  }

  lemma {:induction false} BeforeUnder(r: Path, a: Path, b: Path)
    ensures Before(r + a, r + b) <==> Before(a, b)
  {
    if r == [] {
      assert r + a == a && r + b == b;
    } else {
      BeforeUnder(r[1..], a, b);
      assert (r + a)[1..] == r[1..] + a && (r + b)[1..] == r[1..] + b;
    }
  }

  ghost predicate InOrder(entries: seq<Entry>) {
    forall i, j | 0 <= i < j < |entries| :: Before(entries[i].rel, entries[j].rel)
  }

  ghost predicate AllUnder(entries: seq<Entry>, rel: Path) {
    forall i | 0 <= i < |entries| :: rel <= entries[i].rel
  }

  /** Every entry lies strictly below `rel`, in a child named by `names`. */
  ghost predicate InChildren(entries: seq<Entry>, rel: Path, names: seq<Name>) {
    forall i | 0 <= i < |entries| ::
      rel <= entries[i].rel && |rel| < |entries[i].rel| && entries[i].rel[|rel|] in names
  }

  /** Entries come in strict path order, whatever fails on the way. */
  lemma {:induction false} WalkInOrder(node: Node, path: Path, cfg: Config)
    requires cfg.base <= path && Lists(cfg.listing, node, path)
    ensures InOrder(Walk(node, path, cfg).entries)
    ensures AllUnder(Walk(node, path, cfg).entries, Relative(path, cfg.base))
    decreases node, 1, 0
  {
    if node.Dir? {
      var names := SortNames(cfg.listing(path));
      SortKeepsNoDup(cfg.listing(path));
      WalkAllInOrder(node, path, names, cfg);
      var rel := Relative(path, cfg.base);
      var rest := WalkAll(node, path, names, cfg).entries;
      forall i | 0 <= i < |rest| ensures Before(rel, rest[i].rel) {
        assert rest[i].rel == rel + rest[i].rel[|rel|..] && rel + [] == rel;
        BeforeUnder(rel, [], rest[i].rel[|rel|..]);
      }
    }
  }

  lemma SortKeepsNoDup(names: seq<Name>)
    requires NoDup(names)
    ensures NoDup(SortNames(names))
  {
    var s := SortNames(names);
    forall i, j | 0 <= i < j < |s| ensures s[i] != s[j] {
      if s[i] == s[j] {
        Twice(s, i, j);
        OnceInMultiset(names, s[i]);
      }
    }
  }

  lemma Twice(s: seq<Name>, i: nat, j: nat)
    requires i < j < |s| && s[i] == s[j]
    ensures multiset(s)[s[i]] >= 2
  {
    assert s == s[..j] + [s[j]] + s[j + 1..];
    assert s[..j][i] == s[i] && multiset(s[..j])[s[i]] >= 1;
    assert multiset(s) == multiset(s[..j]) + multiset{s[j]} + multiset(s[j + 1..]);
  }

  lemma {:induction false} OnceInMultiset(s: seq<Name>, x: Name)
    requires NoDup(s)
    ensures multiset(s)[x] <= 1
  {
    if s != [] {
      OnceInMultiset(s[1..], x);
      assert s == [s[0]] + s[1..];
      if x == s[0] {
        assert x !in s[1..];
        assert x !in multiset(s[1..]);
      }
    }
  }

  lemma {:induction false} WalkAllInOrder(node: Node, path: Path, names: seq<Name>, cfg: Config)
    requires cfg.base <= path && Lists(cfg.listing, node, path)
    requires node.Dir? && Sorted(names) && NoDup(names)
    ensures InOrder(WalkAll(node, path, names, cfg).entries)
    ensures InChildren(WalkAll(node, path, names, cfg).entries, Relative(path, cfg.base), names)
    decreases node, 0, |names|
  {
    if names != [] {
      var rel := Relative(path, cfg.base);
      WalkAllInOrder(node, path, names[1..], cfg);
      if names[0] in node.children {
        var child := path + [names[0]];
        WalkInOrder(node.children[names[0]], child, cfg);
        var a := Walk(node.children[names[0]], child, cfg).entries;
        var b := WalkAll(node, path, names[1..], cfg).entries;
        assert Relative(child, cfg.base) == rel + [names[0]];
        FirstChildNamed(a, rel, names[0]);
        ChildrenBefore(a, b, rel, names);
      }
    }
  }

  lemma FirstChildNamed(a: seq<Entry>, rel: Path, n: Name)
    requires AllUnder(a, rel + [n])
    ensures InChildren(a, rel, [n])
  {
    forall i | 0 <= i < |a|
      ensures rel <= a[i].rel && |rel| < |a[i].rel| && a[i].rel[|rel|] == n
    {
      assert rel + [n] <= a[i].rel && (rel + [n])[|rel|] == n;
    }
  }

  /** Everything in the first child comes before everything in the later ones. */
  lemma ChildrenBefore(a: seq<Entry>, b: seq<Entry>, rel: Path, names: seq<Name>)
    requires names != [] && Sorted(names) && NoDup(names)
    requires InChildren(a, rel, [names[0]]) && InChildren(b, rel, names[1..])
    ensures forall i, j | 0 <= i < |a| && 0 <= j < |b| :: Before(a[i].rel, b[j].rel)
  {
    forall i, j | 0 <= i < |a| && 0 <= j < |b| ensures Before(a[i].rel, b[j].rel) {
      var m :| 0 <= m < |names[1..]| && names[1..][m] == b[j].rel[|rel|];
      assert names[m + 1] == b[j].rel[|rel|] && Leq(names[0], names[m + 1]) && names[0] != names[m + 1];
      assert a[i].rel == rel + a[i].rel[|rel|..] && b[j].rel == rel + b[j].rel[|rel|..];
      BeforeUnder(rel, a[i].rel[|rel|..], b[j].rel[|rel|..]);
    }
  }

  lemma {:induction false} BeforeIrreflexive(a: Path, b: Path)
    requires Before(a, b)
    ensures a != b && !Before(b, a)
  {
    if a != [] {
      if a[0] == b[0] {
        BeforeIrreflexive(a[1..], b[1..]);
      } else if Leq(b[0], a[0]) {
        LeqAntisymmetric(a[0], b[0]);
      }
    }
  }

  /** Each path gets one entry, and the entry of every directory above it comes earlier. */
  lemma OneEntryAfterItsParents(root: Node, cfg: Config, i: nat)
    requires root.Dir? && NoFatal(root) && Lists(cfg.listing, root, cfg.base)
    requires i < |Walk(root, cfg.base, cfg).entries|
    ensures var out := Walk(root, cfg.base, cfg).entries; var q := out[i].rel;
            (&& (forall j | 0 <= j < |out| && j != i :: out[j].rel != q)
             && forall k | 0 < k < |q| :: DirEntry(q[..k]) in out[..i])
  {
    var out := Walk(root, cfg.base, cfg).entries;
    var q := out[i].rel;
    WalkInOrder(root, cfg.base, cfg);
    forall j | 0 <= j < |out| && j != i ensures out[j].rel != q {
      if j < i { BeforeIrreflexive(out[j].rel, q); } else { BeforeIrreflexive(q, out[j].rel); }
    }
    forall k | 0 < k < |q| ensures DirEntry(q[..k]) in out[..i] {
      ParentEmitted(root, cfg, out[i], k);
      var j :| 0 <= j < |out| && out[j] == DirEntry(q[..k]);
      if i <= j {
        assert i != j;
        BeforeIrreflexive(q, q[..k]) by {
          assert Before(q, q[..k]);
        }
        assert q == q[..k] + q[k..] && q[..k] + [] == q[..k];
        BeforeUnder(q[..k], [], q[k..]);
        assert false;
      }
      assert out[..i][j] == out[j];
    }
  }

  lemma ParentEmitted(root: Node, cfg: Config, e: Entry, k: nat)
    requires root.Dir? && NoFatal(root) && Lists(cfg.listing, root, cfg.base)
    requires e in Walk(root, cfg.base, cfg).entries && 0 < k < |e.rel|
    ensures DirEntry(e.rel[..k]) in Walk(root, cfg.base, cfg).entries
  {
    hide Walk, Passable;
    var q := e.rel;
    WalkEmits(root, cfg.base, cfg, e);
    assert (cfg.base + q)[|cfg.base|..] == q;
    assert Reached(root, cfg.base, q, cfg);
    var dir := At(root, q[..k]).value;
    assert Reached(root, cfg.base, q[..k], cfg) by {
      assert forall m | 0 <= m <= k :: q[..k][..m] == q[..m];
    }
    assert (cfg.base + q[..k])[|cfg.base|..] == q[..k];
    WalkEmits(root, cfg.base, cfg, DirEntry(q[..k]));
  }

  /** Archives are reproducible: the order directories are listed in leaves no trace in the outcome. */
  lemma {:induction false} ReproducibleArchive(node: Node, path: Path, cfg: Config, other: Listing)
    requires Lists(cfg.listing, node, path) && Lists(other, node, path)
    ensures Walk(node, path, cfg) == Walk(node, path, cfg.(listing := other))
    decreases node, 1, 0
  {
    if node.Dir? {
      SameListing(cfg.listing(path), other(path));
      SortForgetsOrder(cfg.listing(path), other(path));
      ReproducibleChildren(node, path, SortNames(other(path)), cfg, other);
    }
  }

  lemma {:induction false} ReproducibleChildren(node: Node, path: Path, names: seq<Name>, cfg: Config, other: Listing)
    requires node.Dir? && Lists(cfg.listing, node, path) && Lists(other, node, path)
    ensures WalkAll(node, path, names, cfg) == WalkAll(node, path, names, cfg.(listing := other))
    decreases node, 0, |names|
  {
    if names != [] {
      if names[0] in node.children {
        ReproducibleArchive(node.children[names[0]], path + [names[0]], cfg, other);
      }
      ReproducibleChildren(node, path, names[1..], cfg, other);
    }
  }

  /** Two duplicate-free listings of the same names hold the same multiset of names. */
  lemma SameListing(a: seq<Name>, b: seq<Name>)
    requires NoDup(a) && NoDup(b) && forall n :: n in a <==> n in b
    ensures multiset(a) == multiset(b)
  {
    forall n ensures multiset(a)[n] == multiset(b)[n] {
      OnceInMultiset(a, n);
      OnceInMultiset(b, n);
      assert n in a <==> n in multiset(a);
      assert n in b <==> n in multiset(b);
    }
  }
}
