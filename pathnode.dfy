/**
 * The directory tree returned to clients: one node per file-system entry,
 * named by the entry's base name; a directory's node carries its children
 * (possibly none), a file's node carries `null` children.
 */
module PathNodeEntity {
  import opened Wrappers
  import opened Paths
  import opened FileTree
  import opened FileTreeLemmas
  import opened FileSystems

  /** `children == None` is Java's `children == null`, which marks a file. */
  datatype PathNode = PathNode(name: string, children: Option<seq<PathNode>>)

  /** `PathNode(String name)`: the node of a file. */
  function Leaf(name: string): (r: PathNode)
    ensures r.name == name && r.children.None?
  {
    PathNode(name, None)
  }

  /** `PathNode(String name, PathNode[] children)`: the node of a directory. */
  function Branch(name: string, children: seq<PathNode>): (r: PathNode)
    ensures r.name == name && r.children == Some(children)
  {
    PathNode(name, Some(children))
  }

  /** `getEmptyDirInstance(name)`: a directory node without children. */
  function EmptyDirInstance(name: string): (r: PathNode)
    ensures r.name == name && r.children == Some([])
  {
    Branch(name, [])
  }

  /** The nodes the builder produces for a directory's entries, in listing order. */
  function Mirror(es: seq<Entry>): Result<seq<PathNode>, FsError>
    decreases es
  {
    if es == [] then Ok([])
    else
      var init :- Mirror(es[..|es| - 1]);
      var last := es[|es| - 1];
      match last.node
      case File(_) => Ok(init + [Leaf(last.name)])
      case Dir(sub, listable) =>
        if !listable then Err(OtherIO)
        else
          var kids :- Mirror(sub);
          Ok(init + [Branch(last.name, kids)])
  }

  /** What `getChildren(path)` returns, or the error that aborts it. */
  function ChildrenAt(t: Node, p: Path): Result<seq<PathNode>, FsError> {
    match Lookup(t, p)
    case Found(Dir(es, listable)) => if listable then Mirror(es) else Err(OtherIO)
    case Found(File(_)) => Err(OtherIO)
    case Missing => Err(NoSuchFile)
    case ThroughFile => Err(OtherIO)
  }

  /** `new PathNode(root)`: a node named "root" over the listing of `p`; any error aborts it. */
  function RootNode(t: Node, p: Path): (r: Result<PathNode, FsError>)
    ensures r.Ok? <==> ChildrenAt(t, p).Ok?
    ensures r.Ok? ==> r.value.name == "root" && r.value.children == Some(ChildrenAt(t, p).value)
  {
    var cs :- ChildrenAt(t, p);
    Ok(Branch("root", cs))
  }

  /** The node at `p`, used only to measure the recursion of the builders. */
  ghost function NodeAt(t: Node, p: Path): Node {
    match Lookup(t, p) case Found(n) => n case _ => File([])
  }

  /** The entry at index `i` of the directory at `p` is found at `p` extended by its name. */
  lemma EntryLookup(t: Node, p: Path, i: nat)
    requires WellFormed(t) && IsDirectory(t, p) && i < |Lookup(t, p).node.entries|
    ensures Lookup(t, p + [Lookup(t, p).node.entries[i].name]) == Found(Lookup(t, p).node.entries[i].node)
  {
    var d := Lookup(t, p).node;
    LookupWellFormed(t, p);
    FindDistinct(d.entries, i);
    LookupConcat(t, p, [d.entries[i].name]);
  }

  lemma {:induction false} MirrorErrPrefix(es: seq<Entry>, k: nat)
    requires k <= |es| && Mirror(es[..k]).Err?
    ensures Mirror(es) == Mirror(es[..k])
    decreases |es|
  {
    if k < |es| {
      var init := es[..|es| - 1];
      assert init[..k] == es[..k];
      MirrorErrPrefix(init, k);
    } else {
      assert es[..k] == es;
    }
  }

  /** One step of the builder's loop: the nodes for `es[..i + 1]` extend those for `es[..i]`. */
  lemma MirrorStep(es: seq<Entry>, i: nat)
    requires i < |es|
    ensures Mirror(es[..i + 1]) == match Mirror(es[..i])
      case Err(e) => Err(e)
      case Ok(init) =>
        match es[i].node
        case File(_) => Ok(init + [Leaf(es[i].name)])
        case Dir(sub, listable) =>
          if !listable then Err(OtherIO)
          else match Mirror(sub) case Err(e) => Err(e) case Ok(kids) => Ok(init + [Branch(es[i].name, kids)])
  {
    assert es[..i + 1][..i] == es[..i];
  }

  /**
   * `getChildren(path)`: lists `path` and, entry by entry in listing order,
   * appends a leaf for a file or a node built recursively for a directory.
   */
  method GetChildren(fs: FileSystem, path: Path) returns (r: Result<seq<PathNode>, FsError>)
    requires fs.Valid()
    ensures r == ChildrenAt(fs.root, path)
    decreases NodeAt(fs.root, path)
  {
    var listing := fs.List(path);
    if listing.Err? {
      return Err(listing.error);
    }
    var names := listing.value;
    ghost var es := Lookup(fs.root, path).node.entries;
    var children: seq<PathNode> := [];
    var i := 0;
    while i < |names|
      invariant 0 <= i <= |names| == |es|
      invariant forall j :: 0 <= j < |es| ==> names[j] == es[j].name
      invariant Mirror(es[..i]) == Ok(children)
    {
      var e := path + [names[i]];
      EntryLookup(fs.root, path, i);
      MirrorStep(es, i);
      var isDir := fs.IsDir(e);
      if isDir {
        assert es[i] in es;
        var sub := GetChildren(fs, e);
        if sub.Err? {
          MirrorErrPrefix(es, i + 1);
          return Err(sub.error);
        }
        children := children + [Branch(names[i], sub.value)];
      } else {
        children := children + [Leaf(names[i])];
      }
      i := i + 1;
    }
    assert es[..i] == es;
    return Ok(children);
  }

  /**
   * The tree has the shape of the file system: one node per entry, in listing
   * order, named by the entry; children are present exactly for directories,
   * and a directory's children are built from its own entries.
   */
  lemma {:induction false} MirrorShape(es: seq<Entry>)
    requires Mirror(es).Ok?
    ensures var ts := Mirror(es).value;
      && |ts| == |es|
      && forall i :: 0 <= i < |es| ==>
           && ts[i].name == es[i].name
           && (ts[i].children.Some? <==> es[i].node.Dir?)
           && (es[i].node.Dir? ==> Mirror(es[i].node.entries) == Ok(ts[i].children.value))
    decreases es
  {
    if es != [] {
      var init := es[..|es| - 1];
      MirrorShape(init);
      assert forall i :: 0 <= i < |init| ==> init[i] == es[i];
    }
  }

  /** Every directory at or below `n` can be listed. */
  ghost predicate Listable(n: Node) {
    forall q :: IsDirectory(n, q) ==> Lookup(n, q).node.listable
  }

  /** The builder succeeds on a directory's entries exactly when each of them can be mirrored. */
  lemma {:induction false} MirrorOkEach(es: seq<Entry>)
    ensures Mirror(es).Ok? <==> forall i :: 0 <= i < |es| ==> EntryBuilds(es[i].node)
    decreases es
  {
    if es != [] {
      var init := es[..|es| - 1];
      MirrorOkEach(init);
      assert forall i :: 0 <= i < |init| ==> init[i] == es[i];
    }
  }

  predicate EntryBuilds(n: Node) {
    n.File? || (n.listable && Mirror(n.entries).Ok?)
  }

  lemma ListableDir(es: seq<Entry>, l: bool)
    requires WellFormed(Dir(es, l))
    ensures Listable(Dir(es, l)) <==> l && forall i :: 0 <= i < |es| ==> Listable(es[i].node)
  {
    var d := Dir(es, l);
    if Listable(d) {
      assert IsDirectory(d, []);
      forall i, q | 0 <= i < |es| && IsDirectory(es[i].node, q) ensures Lookup(es[i].node, q).node.listable {
        FindDistinct(es, i);
        assert Lookup(d, [es[i].name] + q) == Lookup(es[i].node, q);
      }
    }
    if l && forall i :: 0 <= i < |es| ==> Listable(es[i].node) {
      forall q | IsDirectory(d, q) ensures Lookup(d, q).node.listable {
        if q != [] {
          var i := Find(es, q[0]).value;
          assert Lookup(d, q) == Lookup(es[i].node, q[1..]);
        }
      }
    }
  }

  /** The build of a subtree succeeds exactly when every directory in it can be listed. */
  lemma {:induction false} ListableIffBuilds(n: Node)
    requires WellFormed(n)
    ensures Listable(n) <==> EntryBuilds(n)
    decreases n
  {
    match n
    case File(_) =>
      forall q ensures !IsDirectory(n, q) {
        if q != [] { assert Lookup(n, q) == ThroughFile; }
      }
    case Dir(es, l) =>
      ListableDir(es, l);
      MirrorOkEach(es);
      forall i | 0 <= i < |es| ensures Listable(es[i].node) <==> EntryBuilds(es[i].node) {
        assert es[i] in es;
        ListableIffBuilds(es[i].node);
      }
  }

  /**
   * The whole tree is built exactly when `p` is a directory every directory
   * under which can be listed; any single failure aborts the build.
   */
  lemma ChildrenAtOkIff(t: Node, p: Path)
    requires WellFormed(t)
    ensures ChildrenAt(t, p).Ok? <==> IsDirectory(t, p) && Listable(Lookup(t, p).node)
  {
    if IsDirectory(t, p) {
      LookupWellFormed(t, p);
      ListableIffBuilds(Lookup(t, p).node);
    }
  }

  /** An empty directory yields the same tree as `getEmptyDirInstance("root")`. */
  lemma EmptyDirectoryTree(t: Node, p: Path)
    requires Lookup(t, p) == Found(Dir([], true))
    ensures RootNode(t, p) == Ok(EmptyDirInstance("root"))
  {
  }

  /** A user directory holding only the file `test/path` yields root -> test -> path. */
  lemma SingleNoteTree()
    ensures var t := Dir([Entry("data", Dir([Entry("u1",
                      Dir([Entry("test", Dir([Entry("path", File("x"))], true))], true))], true))], true);
      RootNode(t, ["data", "u1"])
        == Ok(Branch("root", [Branch("test", [Leaf("path")])]))
  {
    var files := [Entry("path", File("x"))];
    var es := [Entry("test", Dir(files, true))];
    assert files[..0] == [] && es[..0] == [] && files[..1] == files && es[..1] == es;
    MirrorStep(files, 0);
    MirrorStep(es, 0);
    assert [] + [Leaf("path")] == [Leaf("path")];
    assert Mirror(files) == Ok([Leaf("path")]);
    assert es[0].node == Dir(files, true);
    assert [] + [Branch("test", [Leaf("path")])] == [Branch("test", [Leaf("path")])];
    assert Mirror(es) == Ok([Branch("test", [Leaf("path")])]);
  }
}
