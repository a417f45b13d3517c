/** `Utils.getTree`: the same directory-to-nodes builder as `PathNode.getChildren`. */
module Utils {
  import opened Wrappers
  import opened Paths
  import opened FileTree
  import opened FileSystems
  import opened PathNodeEntity

  /**
   * Lists `path` and appends, in listing order, a leaf for each file and a
   * recursively built node for each directory; any I/O error aborts the whole
   * call. It agrees with `GetChildren` on every file system, both being
   * `ChildrenAt`.
   */
  method GetTree(fs: FileSystem, path: Path) returns (r: Result<seq<PathNode>, FsError>)
    requires fs.Valid()
    ensures r == ChildrenAt(fs.root, path)
    decreases NodeAt(fs.root, path)
  {
    var listing := fs.List(path);
    if listing.Err? {
      return Err(listing.error);
    }
    var names := listing.value;
    ghost var es := Lookup(fs.root, path).node.entries;
    var children: seq<PathNode> := [];
    var i := 0;
    while i < |names|
      invariant 0 <= i <= |names| == |es|
      invariant forall j :: 0 <= j < |es| ==> names[j] == es[j].name
      invariant Mirror(es[..i]) == Ok(children)
    {
      var e := path + [names[i]];
      EntryLookup(fs.root, path, i);
      MirrorStep(es, i);
      var isDir := fs.IsDir(e);
      if isDir {
        assert es[i] in es;
        var sub := GetTree(fs, e);
        if sub.Err? {
          MirrorErrPrefix(es, i + 1);
          return Err(sub.error);
        }
        children := children + [Branch(names[i], sub.value)];
      } else {
        children := children + [Leaf(names[i])];
      }
      i := i + 1;
    }
    assert es[..i] == es;
    return Ok(children);
  }
}
