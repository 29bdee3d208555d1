/** The recursive archive walker `walk_and_archive`, and the function that specifies it. */
module ArchiveWalk {
  import opened Common
  import opened Paths
  import opened Selection
  import opened FileTree

  const SYSTEM_METADATA_DIRS: seq<Name> := [
    ".Spotlight-V100", ".fseventsd", ".Trashes", ".TemporaryItems", ".DocumentRevisions-V100",
    ".HFS+ Private Directory Data\r", ".HFS+ Private Data", ".vol", "System Volume Information", "$RECYCLE.BIN"]

  predicate IsSystemMetadata(rel: Path) {
    rel != [] && rel[0] in SYSTEM_METADATA_DIRS
  }

  datatype Config = Config(base: Path, selection: Option<ArchiveSelection>, listing: Listing)

  /** Some path the user checked lies at or below `p`. */
  predicate HasIncludedBelow(sel: ArchiveSelection, p: Path) {
    exists inc | inc in sel.included :: p <= inc
  }

  ghost predicate Keep(cfg: Config, path: Path, isDir: bool) {
    cfg.selection.Some? ==>
      || Selected(cfg.selection.value, path, cfg.base)
      || (isDir && HasIncludedBelow(cfg.selection.value, path))
  }

  /** `ArchiveSelection` decision both walks share. */
  method ShouldKeep(cfg: Config, path: Path, isDir: bool) returns (keep: bool)
    ensures keep <==> Keep(cfg, path, isDir)
  {
    match cfg.selection {
      case None => keep := true;
      case Some(sel) =>
        keep := IsIncluded(sel, path, cfg.base);
        if !keep && isDir {
          keep := HasIncludedBelow(sel, path);
        }
    }
  }

  datatype Entry =
    | DirEntry(rel: Path)
    | LinkEntry(rel: Path)
    | FileEntry(rel: Path, data: Bytes)

  /** What an archive holds for a node. */
  function EntryOf(node: Node, rel: Path): Entry {
    match node
    case File(_, _, _, _, _) => FileEntry(rel, Streamed(node))
    case Link(_, _) => LinkEntry(rel)
    case Dir(_, _, _, _) => DirEntry(rel)
  }

  /** What a walk appends, and whether it ran to its end rather than returning an error. */
  datatype Outcome = Outcome(entries: seq<Entry>, ok: bool)

  /** The file bytes of a run of entries, in archive order. */
  function Contents(entries: seq<Entry>): Bytes {
    if entries == [] then [] else DataOf(entries[0]) + Contents(entries[1..])
  }

  function DataOf(e: Entry): Bytes {
    if e.FileEntry? then e.data else []
  }

  lemma ContentsNone()
    ensures Contents([]) == []
  {
  }

  lemma ContentsOne(e: Entry)
    ensures Contents([e]) == DataOf(e)
  {
    assert [e][1..] == [];
  }

  lemma {:induction false} ContentsAppend(a: seq<Entry>, b: seq<Entry>)
    ensures Contents(a + b) == Contents(a) + Contents(b)
  {
    if a == [] {
      assert a + b == b;
    } else {
      ContentsAppend(a[1..], b);
      assert a + b == [a[0]] + (a[1..] + b);
      assert (a + b)[1..] == a[1..] + b;
      SeqAssoc(DataOf(a[0]), Contents(a[1..]), Contents(b));
    }
  }

  ghost function Walk(node: Node, path: Path, cfg: Config): Outcome
    decreases node, 1, 0
  {
    var rel := Relative(path, cfg.base);
    if IsSystemMetadata(rel) || node.stat.Skippable? then Outcome([], true)
    else if node.stat.Fatal? then Outcome([], false)
    else if !Keep(cfg, path, node.Dir?) then Outcome([], true)
    else match node
      case Dir(_, header, list, _) =>
        var own := if rel == [] then [] else [DirEntry(rel)];
        if rel != [] && !header.Clear? then Outcome([], header.Skippable?)
        else if !list.Clear? then Outcome(own, list.Skippable?)
        else
          var rest := WalkAll(node, path, SortNames(cfg.listing(path)), cfg);
          Outcome(own + rest.entries, rest.ok)
      case Link(_, append) =>
        if append.Clear? then Outcome([LinkEntry(rel)], true) else Outcome([], append.Skippable?)
      case File(_, open, read, _, _) =>
        if open.Clear? then Outcome([FileEntry(rel, Streamed(node))], !read.Fatal?) else Outcome([], open.Skippable?)
  }

  /** The children in the given order, up to the first error. A name that is gone is skipped. */
  ghost function WalkAll(node: Node, path: Path, names: seq<Name>, cfg: Config): Outcome
    requires node.Dir?
    decreases node, 0, |names|
  {
    if names == [] then Outcome([], true)
    else if names[0] !in node.children then WalkAll(node, path, names[1..], cfg)
    else
      var first := Walk(node.children[names[0]], path + [names[0]], cfg);
      if !first.ok then first
      else
        var rest := WalkAll(node, path, names[1..], cfg);
        Outcome(first.entries + rest.entries, rest.ok)
  }

  /** The tar builder, the hasher and the byte counter the walk threads through. */
  class Sink {
    var entries: seq<Entry>
    var hashed: Bytes
    var bytesIn: nat

    ghost predicate Valid()
      reads this
    {
      hashed == Contents(entries) && bytesIn == |hashed|
    }

    constructor ()
      ensures Valid() && entries == []
    {
      entries, hashed, bytesIn := [], [], 0;
    }

    method Append(e: Entry)
      requires Valid()
      modifies this
      ensures Valid() && entries == old(entries) + [e]
    {
      ContentsAppend(entries, [e]);
      ContentsOne(e);
      entries := entries + [e];
      if e.FileEntry? {
        bytesIn := bytesIn + |e.data|;
        hashed := hashed + e.data;
      }
    }
  }

  /** `walk_and_archive`: appends exactly what `Walk` says, hashing and counting in lockstep. */
  method WalkAndArchive(node: Node, path: Path, cfg: Config, sink: Sink) returns (ok: bool)
    requires sink.Valid()
    modifies sink
    ensures sink.Valid()
    ensures sink.entries == old(sink.entries) + Walk(node, path, cfg).entries
    ensures ok == Walk(node, path, cfg).ok
    decreases node, 1
  {
    hide Keep, WalkAll, Contents;
    var rel := Relative(path, cfg.base);
    if IsSystemMetadata(rel) {
      return true;
    }
    if !node.stat.Clear? {
      return node.stat.Skippable?;
    }
    var keep := ShouldKeep(cfg, path, node.Dir?);
    if !keep {
      return true;
    }
    match node {
      case Dir(_, header, list, children) =>
        if rel != [] {
          if !header.Clear? {
            return header.Skippable?;
          }
          sink.Append(DirEntry(rel));
        }
        if !list.Clear? {
          return list.Skippable?;
        }
        ok := ArchiveChildren(node, path, SortNames(cfg.listing(path)), cfg, sink);
      case Link(_, append) =>
        if !append.Clear? {
          return append.Skippable?;
        }
        sink.Append(LinkEntry(rel));
        return true;
      case File(_, open, read, _, _) =>
        if !open.Clear? {
          return open.Skippable?;
        }
        sink.Append(FileEntry(rel, Streamed(node)));
        return !read.Fatal?;
    }
  }

  /** The loop over the sorted entries of one directory. */
  method ArchiveChildren(node: Node, path: Path, names: seq<Name>, cfg: Config, sink: Sink) returns (ok: bool)
    requires node.Dir? && sink.Valid()
    modifies sink
    ensures sink.Valid()
    ensures sink.entries == old(sink.entries) + WalkAll(node, path, names, cfg).entries
    ensures ok == WalkAll(node, path, names, cfg).ok
    decreases node, 0
  {
    ghost var all := WalkAll(node, path, names, cfg);
    assert names[0..] == names;
    for i := 0 to |names|
      invariant sink.Valid()
      invariant old(sink.entries) + all.entries == sink.entries + WalkAll(node, path, names[i..], cfg).entries
      invariant all.ok == WalkAll(node, path, names[i..], cfg).ok
    {
      assert names[i..][0] == names[i] && names[i..][1..] == names[i + 1..];
      if names[i] in node.children {
        ok := WalkAndArchive(node.children[names[i]], path + [names[i]], cfg, sink);
        if !ok {
          return false;
        }
      }
    }
    return true;
  }
}
