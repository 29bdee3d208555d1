/** Archive include/exclude selection: `ArchiveSelection::is_included`. */
module Selection {
  import opened Common
  import opened Paths

  /** `globs` decides whether a path relative to the source root matches a user pattern. */
  datatype ArchiveSelection = ArchiveSelection(
    included: set<Path>,
    excluded: set<Path>,
    globs: Option<Path -> bool>)

  predicate GlobHit(sel: ArchiveSelection, p: Path, root: Path) {
    sel.globs.Some? && sel.globs.value(Relative(p, root))
  }

  /** Below the root a glob sees the path from the root on, elsewhere the whole path. */
  lemma GlobSeesRelative(sel: ArchiveSelection, root: Path, rel: Path)
    ensures GlobHit(sel, root + rel, root) <==> sel.globs.Some? && sel.globs.value(rel)
    ensures !(root <= rel) ==> (GlobHit(sel, rel, root) <==> sel.globs.Some? && sel.globs.value(rel))
  {
    assert (root + rel)[|root|..] == rel;
  }

  predicate Marked(sel: ArchiveSelection, p: Path) {
    p in sel.included || p in sel.excluded
  }

  /** The prefix of length `k` is the marked ancestor-or-self of `p` closest to `p`. */
  ghost predicate NearestMark(sel: ArchiveSelection, p: Path, k: nat) {
    k <= |p| && Marked(sel, p[..k]) && forall j | k < j <= |p| :: !Marked(sel, p[..j])
  }

  /** One-pass rule: the nearest mark decides, and an exclude wins a tie. */
  ghost predicate Selected(sel: ArchiveSelection, p: Path, root: Path) {
    && !GlobHit(sel, p, root)
    && ((sel.included == {} && forall k | 0 <= k <= |p| :: p[..k] !in sel.excluded)
        || exists k | 0 <= k <= |p| :: NearestMark(sel, p, k) && p[..k] in sel.included && p[..k] !in sel.excluded)
  }

  /** The first ancestor loop: is the nearest mark an exclude? */
  method IsExplicitlyExcluded(sel: ArchiveSelection, absPath: Path) returns (r: bool)
    ensures r <==> exists k | 0 <= k <= |absPath| :: NearestMark(sel, absPath, k) && absPath[..k] in sel.excluded
  {
    var cursor: Option<Path> := Some(absPath);
    assert absPath[..|absPath|] == absPath;
    while cursor.Some?
      invariant cursor.Some? ==> cursor.value == absPath[..|cursor.value|] && |cursor.value| <= |absPath|
      invariant forall j | (if cursor.Some? then |cursor.value| else -1) < j <= |absPath| :: !Marked(sel, absPath[..j])
      decreases if cursor.Some? then |cursor.value| + 1 else 0
    {
      var p := cursor.value;
      if p in sel.excluded {
        assert NearestMark(sel, absPath, |p|);
        return true;
      }
      if p in sel.included {
        assert NearestMark(sel, absPath, |p|);
        return false;
      }
      cursor := Parent(p);
      if cursor.Some? {
        assert cursor.value == absPath[..|p| - 1];
      }
    }
    return false;
  }

  /** `is_included`: glob check, exclude loop, empty-selection rule, include loop. */
  method IsIncluded(sel: ArchiveSelection, absPath: Path, root: Path) returns (r: bool)
    ensures r <==> Selected(sel, absPath, root)
  {
    if sel.globs.Some? {
      var rel := Relative(absPath, root);
      if sel.globs.value(rel) {
        return false;
      }
    }
    var excluded := IsExplicitlyExcluded(sel, absPath);
    if excluded {
      return false;
    }
    if sel.included == {} {
      NoNearestExclude(sel, absPath);
      return true;
    }
    var cursor: Option<Path> := Some(absPath);
    assert absPath[..|absPath|] == absPath;
    while cursor.Some?
      invariant cursor.Some? ==> cursor.value == absPath[..|cursor.value|] && |cursor.value| <= |absPath|
      invariant forall j | (if cursor.Some? then |cursor.value| else -1) < j <= |absPath| :: !Marked(sel, absPath[..j])
      decreases if cursor.Some? then |cursor.value| + 1 else 0
    {
      var p := cursor.value;
      if p in sel.included {
        assert NearestMark(sel, absPath, |p|);
        return true;
      }
      if p in sel.excluded {
        // The exclude loop would already have stopped here: this branch never fires.
        assert NearestMark(sel, absPath, |p|);
        assert false;
      }
      cursor := Parent(p);
      if cursor.Some? {
        assert cursor.value == absPath[..|p| - 1];
      }
    }
    return false;
  }

  lemma NoNearestExclude(sel: ArchiveSelection, p: Path)
    requires sel.included == {}
    requires !exists k | 0 <= k <= |p| :: NearestMark(sel, p, k) && p[..k] in sel.excluded
    ensures forall k | 0 <= k <= |p| :: p[..k] !in sel.excluded
  {
    if k :| 0 <= k <= |p| && p[..k] in sel.excluded {
      var m := NearestFrom(sel, p, k);
    }
  }

  /** Below any marked prefix there is a nearest mark. */
  lemma NearestFrom(sel: ArchiveSelection, p: Path, k: nat) returns (m: nat)
    requires k <= |p| && Marked(sel, p[..k])
    ensures k <= m <= |p| && NearestMark(sel, p, m)
    decreases |p| - k
  {
    if j :| k < j <= |p| && Marked(sel, p[..j]) {
      m := NearestFrom(sel, p, j);
    } else {
      m := k;
    }
  }

  /** The documented rule for `Fully`: an included ancestor-or-self with no exclude at it or between it and `p`. */
  ghost predicate Fully(sel: ArchiveSelection, p: Path) {
    exists k | 0 <= k <= |p| :: p[..k] in sel.included && forall j | k <= j <= |p| :: p[..j] !in sel.excluded
  }

  /** The nearest-mark rule and the documented rule are the same. */
  lemma DocumentedRule(sel: ArchiveSelection, p: Path, root: Path)
    ensures Selected(sel, p, root)
       <==> !GlobHit(sel, p, root)
            && (if sel.included == {} then forall k | 0 <= k <= |p| :: p[..k] !in sel.excluded else Fully(sel, p))
  {
    if Fully(sel, p) {
      var k :| 0 <= k <= |p| && p[..k] in sel.included && forall j | k <= j <= |p| :: p[..j] !in sel.excluded;
      var m := NearestFrom(sel, p, k);
      assert NearestMark(sel, p, m) && p[..m] in sel.included && p[..m] !in sel.excluded;
    }
  }
}
