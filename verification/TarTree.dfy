/** The library archiver `archive_tree`: an unsorted walk with substring and suffix excludes. */
module TarTree {
  import opened Common
  import opened Paths
  import opened FileTree
  import opened ArchiveWalk

  /** `to_string_lossy` of an absolute path. */
  function Render(p: Path): string {
    if p == [] then "/" else if |p| == 1 then "/" + p[0] else Render(p[..|p| - 1]) + "/" + p[|p| - 1]
  }

  predicate Contains(s: string, pattern: string) {
    exists i | 0 <= i <= |s| - |pattern| :: OccursAt(s, pattern, i)
  }

  predicate OccursAt(s: string, pattern: string, i: nat)
    requires i + |pattern| <= |s|
  {
    s[i..i + |pattern|] == pattern
  }

  predicate EndsWith(s: string, suffix: string) {
    |suffix| <= |s| && s[|s| - |suffix|..] == suffix
  }

  predicate IsStar(pattern: string) {
    pattern != [] && pattern[0] == '*'
  }

  /** `simple_match`: `*suffix` matches the end of the path, any other pattern a substring. */
  predicate SimpleMatch(pattern: string, path: Path) {
    if IsStar(pattern) then EndsWith(Render(path), pattern[1..]) else Contains(Render(path), pattern)
  }

  predicate Excluded(excludes: seq<string>, path: Path) {
    exists i | 0 <= i < |excludes| :: SimpleMatch(excludes[i], path)
  }

  datatype Job = Job(base: Path, excludes: seq<string>, listing: Listing)

  ghost function TarWalk(node: Node, path: Path, job: Job): Outcome
    decreases node, 1, 0
  {
    var rel := Relative(path, job.base);
    if Excluded(job.excludes, path) then Outcome([], true)
    else if !node.stat.Clear? then Outcome([], false)
    else match node
      case Dir(_, header, list, _) =>
        var own := if rel == [] then [] else [DirEntry(rel)];
        if rel != [] && !header.Clear? then Outcome([], false)
        else if !list.Clear? then Outcome(own, false)
        else
          var rest := TarWalkAll(node, path, job.listing(path), job);
          Outcome(own + rest.entries, rest.ok)
      case Link(_, append) => if append.Clear? then Outcome([LinkEntry(rel)], true) else Outcome([], false)
      case File(_, open, read, _, _) =>
        if open.Clear? then Outcome([FileEntry(rel, Streamed(node))], read.Clear?) else Outcome([], false)
  }

  /** The entries of one directory, up to the first error; here a name that is gone is an error too. */
  ghost function TarWalkAll(node: Node, path: Path, names: seq<Name>, job: Job): Outcome
    requires node.Dir?
    decreases node, 0, |names|
  {
    if names == [] then Outcome([], true)
    else if names[0] !in node.children then
      if Excluded(job.excludes, path + [names[0]]) then TarWalkAll(node, path, names[1..], job) else Outcome([], false)
    else
      var first := TarWalk(node.children[names[0]], path + [names[0]], job);
      if !first.ok then first
      else
        var rest := TarWalkAll(node, path, names[1..], job);
        Outcome(first.entries + rest.entries, rest.ok)
  }

  class TarBuilder {
    var entries: seq<Entry>

    constructor ()
      ensures entries == []
    {
      entries := [];
    }
  }

  /** The inner `walk` of `archive_tree`. */
  method WalkTree(node: Node, path: Path, job: Job, builder: TarBuilder) returns (ok: bool)
    modifies builder
    ensures builder.entries == old(builder.entries) + TarWalk(node, path, job).entries
    ensures ok == TarWalk(node, path, job).ok
    decreases node, 1
  {
    if Excluded(job.excludes, path) {
      return true;
    }
    var rel := Relative(path, job.base);
    if !node.stat.Clear? {
      return false;
    }
    match node {
      case Dir(_, header, list, _) =>
        if rel != [] {
          if !header.Clear? {
            return false;
          }
          builder.entries := builder.entries + [DirEntry(rel)];
        }
        if !list.Clear? {
          return false;
        }
        ok := WalkEntries(node, path, job.listing(path), job, builder);
      case Link(_, append) =>
        if !append.Clear? {
          return false;
        }
        builder.entries := builder.entries + [LinkEntry(rel)];
        return true;
      case File(_, open, read, _, _) =>
        if !open.Clear? {
          return false;
        }
        builder.entries := builder.entries + [FileEntry(rel, Streamed(node))];
        return read.Clear?;
    }
  }

  /** The loop over the entries of one directory, in listing order. */
  method WalkEntries(node: Node, path: Path, names: seq<Name>, job: Job, builder: TarBuilder) returns (ok: bool)
    requires node.Dir?
    modifies builder
    ensures builder.entries == old(builder.entries) + TarWalkAll(node, path, names, job).entries
    ensures ok == TarWalkAll(node, path, names, job).ok
    decreases node, 0
  {
    ghost var all := TarWalkAll(node, path, names, job);
    assert names[0..] == names;
    for i := 0 to |names|
      invariant old(builder.entries) + all.entries == builder.entries + TarWalkAll(node, path, names[i..], job).entries
      invariant all.ok == TarWalkAll(node, path, names[i..], job).ok
    {
      assert names[i..][0] == names[i] && names[i..][1..] == names[i + 1..];
      if names[i] in node.children {
        ok := WalkTree(node.children[names[i]], path + [names[i]], job, builder);
        if !ok {
          return false;
        }
      } else if !Excluded(job.excludes, path + [names[i]]) {
        return false;
      }
    }
    return true;
  }

  // ----- What the archive contains

  /** The walk does not skip this node, and the calls up to its entry succeed. */
  ghost predicate TarPasses(node: Node, path: Path, job: Job) {
    && !Excluded(job.excludes, path) && node.stat.Clear?
    && match node
       case File(_, open, _, _, _) => open.Clear?
       case Link(_, append) => append.Clear?
       case Dir(_, header, _, _) => Relative(path, job.base) == [] || header.Clear?
  }

  /** A call the walk makes on this node fails. */
  ghost predicate TarFailsAt(node: Node, path: Path, job: Job) {
    && !Excluded(job.excludes, path)
    && (|| !TarPasses(node, path, job)
        || (node.File? && !node.read.Clear?)
        || (node.Dir? && !node.list.Clear?))
  }

  /** The walk enters the directory and gets the names in it. */
  ghost predicate TarEnters(node: Node, path: Path, job: Job) {
    TarPasses(node, path, job) && node.Dir? && node.list.Clear?
  }

  ghost predicate TarReached(node: Node, path: Path, job: Job, q: Path)
    decreases q
  {
    if q == [] then TarPasses(node, path, job)
    else
      && TarEnters(node, path, job) && q[0] in node.children
      && TarReached(node.children[q[0]], path + [q[0]], job, q[1..])
  }

  ghost predicate TarErrorAt(node: Node, path: Path, job: Job, q: Path)
    decreases q
  {
    if q == [] then TarFailsAt(node, path, job)
    else
      && TarEnters(node, path, job) && q[0] in node.children
      && TarErrorAt(node.children[q[0]], path + [q[0]], job, q[1..])
  }

  ghost predicate TarSomeError(node: Node, path: Path, job: Job) {
    exists q :: TarErrorAt(node, path, job, q)
  }

  ghost predicate TarErrorBelow(node: Node, path: Path, job: Job, n: Name)
    requires node.Dir?
  {
    n in node.children && TarSomeError(node.children[n], path + [n], job)
  }

  lemma TarErrorStep(node: Node, path: Path, job: Job)
    ensures TarSomeError(node, path, job)
       <==> TarFailsAt(node, path, job) || (TarEnters(node, path, job) && exists n :: TarErrorBelow(node, path, job, n))
  {
    hide TarFailsAt, TarEnters;
    if TarFailsAt(node, path, job) {
      assert TarErrorAt(node, path, job, []);
    }
    if TarEnters(node, path, job) {
      assert node.Dir? by { TarEntersDir(node, path, job); }
      if n :| TarErrorBelow(node, path, job, n) {
        var q :| TarErrorAt(node.children[n], path + [n], job, q);
        assert ([n] + q)[1..] == q;
        assert TarErrorAt(node, path, job, [n] + q);
      }
    }
    if q :| TarErrorAt(node, path, job, q) && q != [] {
      assert TarErrorAt(node.children[q[0]], path + [q[0]], job, q[1..]);
      assert TarErrorBelow(node, path, job, q[0]);
    }
  }

  lemma TarEntersDir(node: Node, path: Path, job: Job)
    requires TarEnters(node, path, job)
    ensures node.Dir?
  {
  }

  /** The walk returns an error exactly when it gets to a node on which a call fails; nothing is skipped. */
  lemma {:induction false} TarFailsIff(node: Node, path: Path, job: Job)
    requires Lists(job.listing, node, path)
    ensures TarWalk(node, path, job).ok <==> !TarSomeError(node, path, job)
    decreases node, 1, 0
  {
    hide Excluded, TarErrorBelow, TarSomeError;
    TarErrorStep(node, path, job);
    if TarEnters(node, path, job) {
      TarAllFailsIff(node, path, job.listing(path), job);
      assert forall n :: TarErrorBelow(node, path, job, n) ==> n in job.listing(path) by {
        TarErrorNamed(node, path, job);
      }
    }
  }

  lemma TarErrorNamed(node: Node, path: Path, job: Job)
    requires node.Dir?
    ensures forall n :: TarErrorBelow(node, path, job, n) ==> n in node.children
  {
  }

  lemma {:induction false} TarAllFailsIff(node: Node, path: Path, names: seq<Name>, job: Job)
    requires node.Dir? && Lists(job.listing, node, path) && forall n | n in names :: n in node.children
    ensures TarWalkAll(node, path, names, job).ok <==> forall n | n in names :: !TarErrorBelow(node, path, job, n)
    decreases node, 0, |names|
  {
    hide TarSomeError, TarWalk;
    if names != [] {
      var n := names[0];
      assert names == [n] + names[1..];
      TarAllFailsIff(node, path, names[1..], job);
      TarFailsIff(node.children[n], path + [n], job);
      assert TarErrorBelow(node, path, job, n) <==> !TarWalk(node.children[n], path + [n], job).ok;
      hide TarErrorBelow;
    }
  }

  // ----- What the archive holds, in which order, whatever fails

  /** `x` comes before `y` in the listing. */
  ghost predicate ListedEarlier(names: seq<Name>, x: Name, y: Name) {
    exists i, j | 0 <= i < j < |names| :: names[i] == x && names[j] == y
  }

  /** The order the walk visits `path + a` and `path + b` in. */
  ghost predicate VisitedBefore(job: Job, path: Path, a: Path, b: Path)
    decreases b
  {
    && b != []
    && (|| a == []
        || (a[0] != b[0] && ListedEarlier(job.listing(path), a[0], b[0]))
        || (a[0] == b[0] && VisitedBefore(job, path + [a[0]], a[1..], b[1..])))
  }

  lemma VisitedInChild(job: Job, path: Path, n: Name, a: Path, b: Path)
    ensures VisitedBefore(job, path, [n] + a, [n] + b) <==> VisitedBefore(job, path + [n], a, b)
  {
    assert ([n] + a)[1..] == a && ([n] + b)[1..] == b;
  }

  lemma {:induction false} VisitedIrreflexive(job: Job, path: Path, a: Path)
    ensures !VisitedBefore(job, path, a, a)
    decreases a
  {
    if a != [] {
      VisitedIrreflexive(job, path + [a[0]], a[1..]);
    }
  }

  /** No failure at or below child `m` is visited before `path + q`. */
  ghost predicate TarSafe(node: Node, path: Path, job: Job, m: Name, q: Path)
    requires node.Dir?
  {
    m in node.children ==>
      forall f | TarErrorAt(node.children[m], path + [m], job, f) :: !VisitedBefore(job, path, [m] + f, q)
  }

  /** No failure at or below `path` is visited before `path + q`. */
  ghost predicate TarClear(node: Node, path: Path, job: Job, q: Path) {
    forall f | TarErrorAt(node, path, job, f) :: !VisitedBefore(job, path, f, q)
  }

  /** `e` is the entry of a reached node at or below `path`, and no failure is visited before it. */
  ghost predicate TarArchives(node: Node, path: Path, job: Job, e: Entry) {
    var own := Relative(path, job.base);
    && own <= e.rel
    && (var q := e.rel[|own|..];
        && At(node, q).Some? && TarReached(node, path, job, q)
        && e == EntryOf(At(node, q).value, e.rel) && e != DirEntry([])
        && TarClear(node, path, job, q))
  }

  /** The same for an entry strictly below `path`, in a child named by `names`. */
  ghost predicate TarArchivesIn(node: Node, path: Path, names: seq<Name>, job: Job, e: Entry)
    requires node.Dir?
  {
    var own := Relative(path, job.base);
    && own < e.rel
    && (var q := e.rel[|own|..];
        && q[0] in names && q[0] in node.children
        && At(node, q).Some? && TarReached(node.children[q[0]], path + [q[0]], job, q[1..])
        && e == EntryOf(At(node, q).value, e.rel)
        && forall m | m in names :: TarSafe(node, path, job, m, q))
  }

  /** No path on the chain from `path` to `path + q` is excluded. */
  ghost predicate ChainFree(job: Job, path: Path, q: Path) {
    forall k | 0 <= k <= |q| :: !Excluded(job.excludes, path + q[..k])
  }

  lemma ChainFreeStep(job: Job, path: Path, q: Path)
    requires q != []
    ensures ChainFree(job, path, q) <==> !Excluded(job.excludes, path) && ChainFree(job, path + [q[0]], q[1..])
  {
    assert path + q[..0] == path;
    forall k | 0 < k <= |q| ensures path + [q[0]] + q[1..][..k - 1] == path + q[..k] {
    }
    if ChainFree(job, path + [q[0]], q[1..]) && !Excluded(job.excludes, path) {
      forall k | 0 <= k <= |q| ensures !Excluded(job.excludes, path + q[..k]) {
        if k > 0 {
          assert !Excluded(job.excludes, path + [q[0]] + q[1..][..k - 1]);
        }
      }
    }
    if ChainFree(job, path, q) {
      forall k | 0 <= k <= |q[1..]| ensures !Excluded(job.excludes, path + [q[0]] + q[1..][..k]) {
        assert path + [q[0]] + q[1..][..k] == path + q[..k + 1];
      }
    }
  }

  ghost predicate EmitsAt(out: Outcome, rel: Path) {
    exists e | e in out.entries :: e.rel == rel
  }


  /** Child positions in a listing without repeats. */
  lemma ListedOnce(names: seq<Name>, x: Name, y: Name)
    requires NoDup(names) && ListedEarlier(names, x, y)
    ensures x != y && !ListedEarlier(names, y, x)
  {
  }

  lemma ChildSafety(node: Node, path: Path, job: Job, n: Name, q: Path)
    requires node.Dir? && n in node.children && q != [] && q[0] == n
    ensures TarSafe(node, path, job, n, q) <==> TarClear(node.children[n], path + [n], job, q[1..])
  {
    assert q == [n] + q[1..];
    forall f ensures VisitedBefore(job, path, [n] + f, q) == VisitedBefore(job, path + [n], f, q[1..]) {
      VisitedInChild(job, path, n, f, q[1..]);
    }
  }

  /** What lies in child `n` is visited before any failure in a later child `m`. */
  lemma LaterSafety(node: Node, path: Path, job: Job, n: Name, m: Name, q: Path)
    requires node.Dir? && q != [] && q[0] == n
    requires NoDup(job.listing(path)) && ListedEarlier(job.listing(path), n, m)
    ensures TarSafe(node, path, job, m, q)
  {
    hide TarErrorAt;
    ListedOnce(job.listing(path), n, m);
  }

  /** Any failure in an earlier child `n` is visited before what lies in child `m`. */
  lemma EarlierSafety(node: Node, path: Path, job: Job, n: Name, m: Name, q: Path)
    requires node.Dir? && q != [] && q[0] == m
    requires NoDup(job.listing(path)) && ListedEarlier(job.listing(path), n, m)
    ensures TarSafe(node, path, job, n, q) <==> !TarErrorBelow(node, path, job, n)
  {
    hide TarErrorAt;
    ListedOnce(job.listing(path), n, m);
    forall f ensures VisitedBefore(job, path, [n] + f, q) {
    }
  }

  lemma ArchivesInChild(node: Node, path: Path, job: Job, n: Name, e: Entry)
    requires job.base <= path && node.Dir? && n in node.children
    ensures TarArchives(node.children[n], path + [n], job, e)
       <==> && TarArchivesIn(node, path, [n], job, e)
            && e.rel[|Relative(path, job.base)|] == n
  {
    hide TarReached, TarSafe, TarClear;
    var own := Relative(path, job.base);
    assert Relative(path + [n], job.base) == own + [n];
    if own < e.rel && e.rel[|own|] == n {
      var q := e.rel[|own|..];
      assert own + [n] <= e.rel && e.rel[|own + [n]|..] == q[1..];
      ChildSafety(node, path, job, n, q);
      assert forall m | m in [n] :: m == n;
    }
  }

  lemma {:induction false} TarCutsChildren(node: Node, path: Path, k: nat, job: Job, e: Entry)
    requires job.base <= path && node.Dir? && Lists(job.listing, node, path) && k <= |job.listing(path)|
    ensures e in TarWalkAll(node, path, job.listing(path)[k..], job).entries
       <==> TarArchivesIn(node, path, job.listing(path)[k..], job, e)
    decreases node, 0, |job.listing(path)| - k
  {
    hide TarReached, TarSafe, TarArchives, TarWalk;
    var all := job.listing(path);
    if k < |all| {
      var n, tail := all[k], all[k + 1..];
      assert all[k..] == [n] + tail;
      TarCutsChildren(node, path, k + 1, job, e);
      TarHolds(node.children[n], path + [n], job, e);
      ArchivesInChild(node, path, job, n, e);
      var own := Relative(path, job.base);
      if own < e.rel {
        CutSafety(node, path, k, job, e.rel[|own|..]);
      }
    }
  }

  /** Child `k` is visited before the later ones, so its failures cut them and theirs do not cut it. */
  lemma CutSafety(node: Node, path: Path, k: nat, job: Job, q: Path)
    requires node.Dir? && Lists(job.listing, node, path) && k < |job.listing(path)| && q != []
    ensures var all := job.listing(path); var n := all[k];
            (&& (q[0] == n ==> n !in all[k + 1..] && forall m | m in all[k + 1..] :: TarSafe(node, path, job, m, q))
             && (q[0] in all[k + 1..] ==>
                   q[0] != n && (TarSafe(node, path, job, n, q)
                                 <==> TarWalk(node.children[n], path + [n], job).ok)))
  {
    hide TarSafe, TarWalk, ListedEarlier, TarErrorBelow;
    var all := job.listing(path);
    var n := all[k];
    forall m | m in all[k + 1..] ensures ListedEarlier(all, n, m) && n != m {
      ListedAfter(all, k, m);
    }
    if q[0] == n {
      forall m | m in all[k + 1..] ensures TarSafe(node, path, job, m, q) {
        LaterSafety(node, path, job, n, m, q);
      }
    } else if q[0] in all[k + 1..] {
      EarlierSafety(node, path, job, n, q[0], q);
      ErrorBelowFails(node, path, job, n);
    }
  }

  lemma ErrorBelowFails(node: Node, path: Path, job: Job, n: Name)
    requires node.Dir? && n in node.children && Lists(job.listing, node.children[n], path + [n])
    ensures TarErrorBelow(node, path, job, n) <==> !TarWalk(node.children[n], path + [n], job).ok
  {
    hide TarSomeError, TarWalk;
    TarFailsIff(node.children[n], path + [n], job);
  }

  lemma ListedAfter(names: seq<Name>, k: nat, m: Name)
    requires NoDup(names) && k < |names| && m in names[k + 1..]
    ensures ListedEarlier(names, names[k], m) && names[k] != m
  {
    var j :| 0 <= j < |names[k + 1..]| && names[k + 1..][j] == m;
    assert names[k + 1 + j] == m;
  }

  /** Below a directory that is entered, what is archived is what the children archive. */
  lemma ArchivesBelow(node: Node, path: Path, job: Job, e: Entry)
    requires job.base <= path && TarEnters(node, path, job) && Lists(job.listing, node, path)
    requires e.rel != Relative(path, job.base)
    ensures TarArchives(node, path, job, e) <==> TarArchivesIn(node, path, job.listing(path), job, e)
  {
    hide Excluded, TarPasses, VisitedBefore;
    var own := Relative(path, job.base);
    assert !TarFailsAt(node, path, job);
    if own < e.rel {
      var q := e.rel[|own|..];
      if forall m | m in job.listing(path) :: TarSafe(node, path, job, m, q) {
        forall f | TarErrorAt(node, path, job, f) ensures !VisitedBefore(job, path, f, q) {
          assert f == [f[0]] + f[1..];
          assert TarSafe(node, path, job, f[0], q);
        }
      }
      if TarClear(node, path, job, q) {
        forall m, f | m in node.children && TarErrorAt(node.children[m], path + [m], job, f)
          ensures !VisitedBefore(job, path, [m] + f, q)
        {
          assert ([m] + f)[1..] == f;
          assert TarErrorAt(node, path, job, [m] + f);
        }
      }
    }
  }

  /**
   * Whatever fails: the archive holds exactly the entries of the reached nodes that are visited before the
   * first failure, a file's entry with its contents.
   */
  lemma {:induction false} TarHolds(node: Node, path: Path, job: Job, e: Entry)
    requires job.base <= path && Lists(job.listing, node, path)
    ensures e in TarWalk(node, path, job).entries <==> TarArchives(node, path, job, e)
    decreases node, 1, 0
  {
    hide Excluded, VisitedBefore;
    var own := Relative(path, job.base);
    if e.rel == own {
      forall f ensures !VisitedBefore(job, path, f, []) { NothingBefore(job, path, f); }
      assert e.rel[|own|..] == [];
    }
    if TarEnters(node, path, job) {
      var names := job.listing(path);
      assert names[0..] == names;
      TarCutsChildren(node, path, 0, job, e);
      if e.rel != own {
        ArchivesBelow(node, path, job, e);
      }
    }
  }

  lemma NothingBefore(job: Job, path: Path, f: Path)
    ensures !VisitedBefore(job, path, f, [])
  {
  }

  /** Entries lie under `own` and come in the order the listing is visited in. */
  ghost predicate TarOrdered(job: Job, path: Path, own: Path, entries: seq<Entry>) {
    && (forall i | 0 <= i < |entries| :: own <= entries[i].rel)
    && forall i, j | 0 <= i < j < |entries| ::
         VisitedBefore(job, path, entries[i].rel[|own|..], entries[j].rel[|own|..])
  }

  ghost predicate TarNamed(entries: seq<Entry>, own: Path, names: seq<Name>) {
    forall i | 0 <= i < |entries| :: own < entries[i].rel && entries[i].rel[|own|] in names
  }

  /** Entries come in the order the directories list their names, each directory before what is in it. */
  lemma {:induction false} TarInOrder(node: Node, path: Path, job: Job)
    requires job.base <= path && Lists(job.listing, node, path)
    ensures TarOrdered(job, path, Relative(path, job.base), TarWalk(node, path, job).entries)
    decreases node, 1, 0
  {
    hide Excluded;
    if TarEnters(node, path, job) {
      assert job.listing(path)[0..] == job.listing(path);
      TarAllInOrder(node, path, 0, job);
    }
  }

  lemma {:induction false} TarAllInOrder(node: Node, path: Path, k: nat, job: Job)
    requires job.base <= path && node.Dir? && Lists(job.listing, node, path) && k <= |job.listing(path)|
    ensures var own, names := Relative(path, job.base), job.listing(path)[k..];
            (&& TarNamed(TarWalkAll(node, path, names, job).entries, own, names)
             && TarOrdered(job, path, own, TarWalkAll(node, path, names, job).entries))
    decreases node, 0, |job.listing(path)| - k
  {
    hide TarWalk, VisitedBefore, Excluded;
    var all, own := job.listing(path), Relative(path, job.base);
    if k < |all| {
      var n, tail := all[k], all[k + 1..];
      assert all[k..] == [n] + tail;
      TarAllInOrder(node, path, k + 1, job);
      TarInOrder(node.children[n], path + [n], job);
      var a := TarWalk(node.children[n], path + [n], job).entries;
      var b := TarWalkAll(node, path, tail, job).entries;
      assert Relative(path + [n], job.base) == own + [n];
      LiftOrder(job, path, own, n, a);
      JoinOrder(job, path, own, k, a, b);
    }
  }

  lemma LiftOrder(job: Job, path: Path, own: Path, n: Name, a: seq<Entry>)
    requires TarOrdered(job, path + [n], own + [n], a)
    ensures TarNamed(a, own, [n]) && TarOrdered(job, path, own, a)
  {
    forall i | 0 <= i < |a| ensures own < a[i].rel && a[i].rel[|own|..] == [n] + a[i].rel[|own| + 1..] {
      assert own + [n] <= a[i].rel;
    }
    forall i, j | 0 <= i < j < |a| ensures VisitedBefore(job, path, a[i].rel[|own|..], a[j].rel[|own|..]) {
      assert |own + [n]| == |own| + 1;
      VisitedInChild(job, path, n, a[i].rel[|own| + 1..], a[j].rel[|own| + 1..]);
    }
  }

  lemma JoinOrder(job: Job, path: Path, own: Path, k: nat, a: seq<Entry>, b: seq<Entry>)
    requires NoDup(job.listing(path)) && k < |job.listing(path)|
    requires TarNamed(a, own, [job.listing(path)[k]]) && TarOrdered(job, path, own, a)
    requires TarNamed(b, own, job.listing(path)[k + 1..]) && TarOrdered(job, path, own, b)
    ensures TarOrdered(job, path, own, a + b)
  {
    forall i, j | 0 <= i < |a| && 0 <= j < |b|
      ensures VisitedBefore(job, path, a[i].rel[|own|..], b[j].rel[|own|..])
    {
      ListedAfter(job.listing(path), k, b[j].rel[|own|]);
    }
  }

  /** No path gets two entries. */
  lemma TarEntriesDistinct(root: Node, job: Job, i: nat, j: nat)
    requires Lists(job.listing, root, job.base)
    requires i < j < |TarWalk(root, job.base, job).entries|
    ensures TarWalk(root, job.base, job).entries[i].rel != TarWalk(root, job.base, job).entries[j].rel
  {
    hide TarWalk;
    TarInOrder(root, job.base, job);
    VisitedIrreflexive(job, job.base, TarWalk(root, job.base, job).entries[i].rel);
  }

  // ----- Trees without errors

  lemma {:induction false} CleanTarErrors(node: Node, path: Path, job: Job, q: Path)
    requires ErrorFree(node)
    ensures !TarErrorAt(node, path, job, q)
    decreases q
  {
    if q != [] && node.Dir? && q[0] in node.children {
      CleanTarErrors(node.children[q[0]], path + [q[0]], job, q[1..]);
    }
  }

  lemma {:induction false} CleanTarReached(node: Node, path: Path, job: Job, q: Path)
    requires ErrorFree(node)
    ensures TarReached(node, path, job, q) <==> At(node, q).Some? && ChainFree(job, path, q)
    decreases q
  {
    hide Excluded;
    if q == [] {
      assert path + q[..0] == path;
      assert ChainFree(job, path, q) <==> !Excluded(job.excludes, path);
    } else {
      ChainFreeStep(job, path, q);
      if node.Dir? && q[0] in node.children {
        CleanTarReached(node.children[q[0]], path + [q[0]], job, q[1..]);
      }
    }
  }

  /** On an error-free tree every entry is its node's: files hold their whole contents, links and directories none. */
  lemma TarEntriesHold(root: Node, job: Job, e: Entry)
    requires ErrorFree(root) && Lists(job.listing, root, job.base) && e in TarWalk(root, job.base, job).entries
    ensures At(root, e.rel).Some?
    ensures match At(root, e.rel).value
            case File(_, _, _, content, _) => e == FileEntry(e.rel, content)
            case Link(_, _) => e == LinkEntry(e.rel)
            case Dir(_, _, _, _) => e == DirEntry(e.rel)
  {
    hide TarWalk;
    TarHolds(root, job.base, job, e);
    assert e.rel[0..] == e.rel;
    ErrorFreeAt(root, e.rel);
  }

  /** On an error-free tree a path other than the root is archived exactly when no path on its chain is excluded. */
  lemma ArchivedIffChainFree(root: Node, job: Job, q: Path)
    requires root.Dir? && ErrorFree(root) && Lists(job.listing, root, job.base) && q != []
    ensures EmitsAt(TarWalk(root, job.base, job), q) <==> At(root, q).Some? && ChainFree(job, job.base, q)
  {
    hide TarWalk;
    assert Relative(job.base, job.base) == [] && q[0..] == q;
    CleanTarReached(root, job.base, job, q);
    forall f ensures !TarErrorAt(root, job.base, job, f) {
      CleanTarErrors(root, job.base, job, f);
    }
    if At(root, q).Some? {
      TarHolds(root, job.base, job, EntryOf(At(root, q).value, q));
    }
    if e :| e in TarWalk(root, job.base, job).entries && e.rel == q {
      TarHolds(root, job.base, job, e);
    }
  }

  // ----- Substring patterns are inherited, suffix patterns are not

  lemma {:induction false} RenderPrefix(p: Path, k: nat)
    requires k <= |p| && k > 0
    ensures Render(p[..k]) <= Render(p)
    decreases |p|
  {
    if k < |p| {
      RenderPrefix(p[..|p| - 1], k);
      assert p[..|p| - 1][..k] == p[..k];
    } else {
      assert p[..k] == p;
    }
  }

  lemma RootPrefix(p: Path)
    ensures Render([]) <= Render(p)
  {
    if p != [] {
      RenderPrefix(p, 1);
    }
  }

  lemma SubstringInherited(pattern: string, p: Path, k: nat)
    requires k <= |p| && !IsStar(pattern) && SimpleMatch(pattern, p[..k])
    ensures SimpleMatch(pattern, p)
  {
    var s, t := Render(p[..k]), Render(p);
    assert s <= t by {
      if k == 0 { RootPrefix(p); } else { RenderPrefix(p, k); }
    }
    var i :| 0 <= i <= |s| - |pattern| && OccursAt(s, pattern, i);
    assert t[i..i + |pattern|] == s[i..i + |pattern|];
    assert OccursAt(t, pattern, i);
  }

  /** What the two kinds of patterns match: a part of the rendered path, or its end. */
  lemma MatchMeans(pattern: string, path: Path)
    ensures !IsStar(pattern) ==> (SimpleMatch(pattern, path) <==> exists a, b :: Render(path) == a + pattern + b)
    ensures IsStar(pattern) ==> (SimpleMatch(pattern, path) <==> exists a :: Render(path) == a + pattern[1..])
  {
    var s := Render(path);
    if !IsStar(pattern) {
      if i :| 0 <= i <= |s| - |pattern| && OccursAt(s, pattern, i) {
        assert s == s[..i] + pattern + s[i + |pattern|..];
      }
      if a, b :| s == a + pattern + b {
        assert OccursAt(s, pattern, |a|);
      }
    } else {
      var suffix := pattern[1..];
      if EndsWith(s, suffix) {
        assert s == s[..|s| - |suffix|] + suffix;
      }
      if a :| s == a + suffix {
        assert s[|s| - |suffix|..] == suffix;
      }
    }
  }

  lemma RenderEndsWithName(p: Path) returns (a: string)
    requires p != []
    ensures Render(p) == a + p[|p| - 1]
  {
    a := if |p| == 1 then "/" else Render(p[..|p| - 1]) + "/";
  }

  /** A pattern that is the name of a component excludes everything at or below that component. */
  lemma NameExcludesSubtree(excludes: seq<string>, p: Path, k: nat)
    requires k < |p| && !IsStar(p[k]) && p[k] in excludes
    ensures Excluded(excludes, p)
  {
    var i :| 0 <= i < |excludes| && excludes[i] == p[k];
    var s := Render(p[..k + 1]);
    var a := RenderEndsWithName(p[..k + 1]);
    RenderPrefix(p, k + 1);
    hide Render, SimpleMatch;
    assert Render(p) == a + p[k] + Render(p)[|s|..];
    MatchMeans(p[k], p);
    assert SimpleMatch(excludes[i], p);
  }

  /** Rendering a path is rendering its parts one after the other. */
  lemma {:induction false} RenderJoins(p: Path, q: Path)
    requires p != [] && q != []
    ensures Render(p + q) == Render(p) + Render(q)
    decreases |q|
  {
    assert (p + q)[..|p + q| - 1] == p + q[..|q| - 1];
    if |q| == 1 {
      assert p + q[..0] == p;
      assert Render(q) == "/" + q[0];
    } else {
      RenderJoins(p, q[..|q| - 1]);
    }
  }

  /** When no pattern starts with `*`, a path is archived exactly when the path itself is not excluded. */
  lemma SubstringExcludesFilter(root: Node, job: Job, q: Path)
    requires root.Dir? && ErrorFree(root) && Lists(job.listing, root, job.base) && q != []
    requires forall i | 0 <= i < |job.excludes| :: !IsStar(job.excludes[i])
    ensures EmitsAt(TarWalk(root, job.base, job), q)
       <==> At(root, q).Some? && !Excluded(job.excludes, job.base + q)
  {
    ArchivedIffChainFree(root, job, q);
    var p := job.base + q;
    assert q[..|q|] == q;
    if !ChainFree(job, job.base, q) {
      var k :| 0 <= k <= |q| && Excluded(job.excludes, job.base + q[..k]);
      assert p[..|job.base| + k] == job.base + q[..k];
      var i :| 0 <= i < |job.excludes| && SimpleMatch(job.excludes[i], job.base + q[..k]);
      SubstringInherited(job.excludes[i], p, |job.base| + k);
    }
  }

  /** A suffix pattern can match a directory and not its file: the file is not excluded, yet not archived. */
  lemma SuffixPrunesUnmatchedFile() returns (root: Node, job: Job, q: Path)
    ensures root.Dir? && ErrorFree(root) && Lists(job.listing, root, job.base)
    ensures At(root, q).Some? && !Excluded(job.excludes, job.base + q)
    ensures !EmitsAt(TarWalk(root, job.base, job), q)
  {
    var file := File(Clear, Clear, Clear, [], 0);
    root := TwoLevelTree("d", "x", file);
    job := Job([], ["*d"], (p: Path) => if p == [] then ["d"] else ["x"]);
    q := ["d", "x"];
    TwoLevelTreeFacts("d", "x", file, job.listing);
    SuffixExample(job, q);
    ArchivedIffChainFree(root, job, q);
  }

  lemma SuffixExample(job: Job, q: Path)
    requires job.base == [] && job.excludes == ["*d"] && q == ["d", "x"]
    ensures !Excluded(job.excludes, [] + q) && !ChainFree(job, [], q)
  {
    assert [] + q == q && q[..1] == ["d"] && [] + q[..1] == ["d"];
    assert Render(["d"]) == "/d" && Render(q) == "/d/x";
    assert "*d"[1..] == "d";
    assert "/d"[1..] == "d" && "/d/x"[3..] == "x";
    assert SimpleMatch(job.excludes[0], ["d"]) && !SimpleMatch(job.excludes[0], q);
    assert Excluded(job.excludes, [] + q[..1]);
  }
}
