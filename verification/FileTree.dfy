/** A stable file tree, and the oracle that says in which order directories list their entries. */
module FileTree {
  import opened Common
  import opened Paths

  /**
   * How a system call on a node ends. An error is `Skippable` when the walk skips the node after it: for
   * `stat`, `list` (`read_dir`) and `open` when `is_skippable_io_error` holds; for `header` (`append_dir`),
   * `append` (`append_path_with_name`) and `read` (`append_data`) when it holds of the `io::Error` that the
   * reported error wraps, any other error being `Fatal`.
   */
  datatype Fault = Clear | Skippable | Fatal

  datatype Node =
    | File(stat: Fault, open: Fault, read: Fault, content: Bytes, readable: nat)
    | Link(stat: Fault, append: Fault)
    | Dir(stat: Fault, header: Fault, list: Fault, children: map<Name, Node>)

  /** The order `read_dir` yields the names of each directory in. */
  type Listing = Path -> seq<Name>

  /** The node `rel` below `node`. */
  function At(node: Node, rel: Path): Option<Node>
    decreases rel
  {
    if rel == [] then Some(node)
    else if node.Dir? && rel[0] in node.children then At(node.children[rel[0]], rel[1..])
    else None
  }

  /** `listing` yields every entry of every directory under `path` exactly once. */
  ghost predicate Lists(listing: Listing, node: Node, path: Path) {
    node.Dir? ==>
      && NoDup(listing(path))
      && (forall n :: n in listing(path) <==> n in node.children)
      && forall n | n in node.children :: Lists(listing, node.children[n], path + [n])
  }

  /** No call on any node below fails with an error that aborts the walk. */
  ghost predicate NoFatal(node: Node) {
    && !node.stat.Fatal?
    && match node
       case File(_, open, read, _, _) => !open.Fatal? && !read.Fatal?
       case Link(_, append) => !append.Fatal?
       case Dir(_, header, list, children) =>
         !header.Fatal? && !list.Fatal? && forall n | n in children :: NoFatal(children[n])
  }

  /** No call on any node below fails at all. */
  ghost predicate ErrorFree(node: Node) {
    && node.stat.Clear?
    && match node
       case File(_, open, read, _, _) => open.Clear? && read.Clear?
       case Link(_, append) => append.Clear?
       case Dir(_, header, list, children) =>
         header.Clear? && list.Clear? && forall n | n in children :: ErrorFree(children[n])
  }

  lemma ErrorFreeNoFatal(node: Node)
    requires ErrorFree(node)
    ensures NoFatal(node)
  {
  }

  /** The nodes on the chain down to a node of an error-free tree are error free. */
  lemma {:induction false} ErrorFreeAt(node: Node, rel: Path)
    requires ErrorFree(node) && At(node, rel).Some?
    ensures ErrorFree(At(node, rel).value)
    decreases rel
  {
    if rel != [] {
      ErrorFreeAt(node.children[rel[0]], rel[1..]);
    }
  }

  /** The bytes of a file that reach the archive: all of it unless reading fails. */
  function Streamed(f: Node): (r: Bytes)
    requires f.File?
    ensures r <= f.content
    ensures |r| == if f.read.Clear? then |f.content| else Min(f.readable, |f.content|)
  {
    if f.read.Clear? then f.content else f.content[..Min(f.readable, |f.content|)]
  }

  lemma {:induction false} AtPrefix(node: Node, rel: Path, k: nat)
    requires At(node, rel).Some? && k <= |rel|
    ensures At(node, rel[..k]).Some?
    ensures k < |rel| ==> At(node, rel[..k]).value.Dir?
    decreases rel
  {
    if k > 0 {
      AtPrefix(node.children[rel[0]], rel[1..], k - 1);
      assert rel[..k][1..] == rel[1..][..k - 1];
    }
  }

  /** A directory holding one directory that holds one node; used for concrete inputs. */
  function TwoLevelTree(d: Name, f: Name, leaf: Node): Node {
    Dir(Clear, Clear, Clear, map[d := Dir(Clear, Clear, Clear, map[f := leaf])])
  }

  lemma TwoLevelTreeFacts(d: Name, f: Name, leaf: Node, listing: Listing)
    requires leaf.File? && listing([]) == [d] && listing([d]) == [f]
    ensures Lists(listing, TwoLevelTree(d, f, leaf), [])
    ensures At(TwoLevelTree(d, f, leaf), [d, f]) == Some(leaf)
    ensures ErrorFree(leaf) ==> ErrorFree(TwoLevelTree(d, f, leaf))
  {
    var dir := Dir(Clear, Clear, Clear, map[f := leaf]);
    assert [] + [d] == [d];
    assert Lists(listing, leaf, [d] + [f]);
    assert Lists(listing, dir, [d]);
    assert [d, f][1..] == [f] && [f][1..] == [];
    assert At(dir, [f]) == Some(leaf);
  }
}
