/** Paths as sequences of component names, and the order `PathBuf` sorts siblings by. */
module Paths {
  import opened Common

  type Name = string

  /** An absolute path: the components below the file-system root. */
  type Path = seq<Name>

  /** `Path::parent`. */
  function Parent(p: Path): Option<Path> {
    if p == [] then None else Some(p[..|p| - 1])
  }

  /** `p.strip_prefix(base).unwrap_or(p)`. */
  function Relative(p: Path, base: Path): Path {
    if base <= p then p[|base|..] else p
  }

  /** Lexicographic order on names, the order siblings are sorted by. */
  predicate Leq(a: Name, b: Name) {
    || a == []
    || (b != [] && (a[0] < b[0] || (a[0] == b[0] && Leq(a[1..], b[1..]))))
  }

  lemma LeqTotal(a: Name, b: Name)
    ensures Leq(a, b) || Leq(b, a)
  {
    if a != [] && b != [] && a[0] == b[0] {
      LeqTotal(a[1..], b[1..]);
    }
  }

  lemma LeqAntisymmetric(a: Name, b: Name)
    requires Leq(a, b) && Leq(b, a)
    ensures a == b
  {
    if a != [] && b != [] {
      LeqAntisymmetric(a[1..], b[1..]);
      assert a == [a[0]] + a[1..] && b == [b[0]] + b[1..];
    }
  }

  lemma LeqTransitive(a: Name, b: Name, c: Name)
    requires Leq(a, b) && Leq(b, c)
    ensures Leq(a, c)
  {
    if a != [] && a[0] == b[0] && b[0] == c[0] {
      LeqTransitive(a[1..], b[1..], c[1..]);
    }
  }

  ghost predicate Sorted(names: seq<Name>) {
    forall i, j | 0 <= i < j < |names| :: Leq(names[i], names[j])
  }

  /** `entries.sort()`, restricted to the siblings of one directory. */
  function SortNames(names: seq<Name>): (r: seq<Name>)
    ensures Sorted(r) && multiset(r) == multiset(names)
  {
    if names == [] then [] else
      assert names == [names[0]] + names[1..];
      Insert(names[0], SortNames(names[1..]))
  }

  function Insert(x: Name, s: seq<Name>): (r: seq<Name>)
    requires Sorted(s)
    ensures Sorted(r) && multiset(r) == multiset(s) + multiset{x}
  {
    if s == [] then [x]
    else if Leq(x, s[0]) then
      InsertFrontSorted(x, s);
      [x] + s
    else
      LeqTotal(x, s[0]);
      assert s == [s[0]] + s[1..];
      InsertTailSorted(s[0], s[1..], x, Insert(x, s[1..]));
      [s[0]] + Insert(x, s[1..])
  }

  lemma InsertFrontSorted(x: Name, s: seq<Name>)
    requires Sorted(s) && s != [] && Leq(x, s[0])
    ensures Sorted([x] + s)
  {
    forall j | 0 < j < |s| ensures Leq(x, s[j]) {
      LeqTransitive(x, s[0], s[j]);
    }
  }

  lemma InsertTailSorted(h: Name, tail: seq<Name>, x: Name, r: seq<Name>)
    requires Sorted([h] + tail) && Leq(h, x) && Sorted(r)
    requires multiset(r) == multiset(tail) + multiset{x}
    ensures Sorted([h] + r)
  {
    forall j | 0 <= j < |r| ensures Leq(h, r[j]) {
      assert r[j] in multiset(r);
      if r[j] != x {
        assert r[j] in tail;
        var k :| 0 <= k < |tail| && tail[k] == r[j];
        assert ([h] + tail)[k + 1] == r[j];
        assert Leq(([h] + tail)[0], ([h] + tail)[k + 1]);
      }
    }
  }

  lemma FirstIsLeast(s: seq<Name>, x: Name)
    requires Sorted(s) && x in s
    ensures Leq(s[0], x)
  {
    var i :| 0 <= i < |s| && s[i] == x;
    if i == 0 {
      LeqTotal(x, x);
    }
  }

  /** A sorted listing is determined by what it contains. */
  lemma {:induction false} SortedUnique(a: seq<Name>, b: seq<Name>)
    requires Sorted(a) && Sorted(b) && multiset(a) == multiset(b)
    ensures a == b
  {
    if a == [] {
      assert |multiset(b)| == 0;
    } else {
      assert |multiset(a)| == |a| && |multiset(b)| == |b|;
      assert a[0] == b[0] by {
        assert a[0] in multiset(b) && b[0] in multiset(a);
        FirstIsLeast(b, a[0]);
        FirstIsLeast(a, b[0]);
        LeqAntisymmetric(a[0], b[0]);
      }
      assert a == [a[0]] + a[1..] && b == [b[0]] + b[1..];
      assert multiset(a[1..]) == multiset(b[1..]) by {
        assert multiset(a[1..]) == multiset(a) - multiset{a[0]};
        assert multiset(b[1..]) == multiset(b) - multiset{b[0]};
      }
      SortedUnique(a[1..], b[1..]);
    }
  }

  /** Sorting hides the order a listing came in. */
  lemma SortForgetsOrder(a: seq<Name>, b: seq<Name>)
    requires multiset(a) == multiset(b)
    ensures SortNames(a) == SortNames(b)
  {
    SortedUnique(SortNames(a), SortNames(b));
  }
}
