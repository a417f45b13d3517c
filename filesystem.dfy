/**
 * The file system as mutable state: the `java.nio.file.Files` calls the note
 * store makes, each either observing the tree or replacing it by its updated
 * version.
 */
module FileSystems {
  import opened Wrappers
  import opened Paths
  import opened FileTree
  import opened FileTreeLemmas

  class FileSystem {
    var root: Node

    ghost predicate Valid()
      reads this
    {
      ValidRoot(root)
    }

    constructor (root: Node)
      requires ValidRoot(root)
      ensures Valid() && this.root == root
    {
      this.root := root;
    }

    /** `Files.readAllBytes(p)`. */
    method ReadAllBytes(p: Path) returns (r: Result<string, FsError>)
      ensures r == ReadAll(root, p)
      ensures r.Ok? <==> Lookup(root, p).Found? && Lookup(root, p).node.File?
      ensures r == Err(NoSuchFile) <==> Lookup(root, p) == Missing
    {
      r := ReadAll(root, p);
    }

    /** `Files.list(p)`, as the names of the listed entries. */
    method List(p: Path) returns (r: Result<seq<Name>, FsError>)
      ensures r == ListNames(root, p)
      ensures r.Ok? <==> Lookup(root, p).Found? && Lookup(root, p).node.Dir? && Lookup(root, p).node.listable
    {
      r := ListNames(root, p);
    }

    /** `Files.isDirectory(p)`. */
    method IsDir(p: Path) returns (b: bool)
      ensures b <==> Lookup(root, p).Found? && Lookup(root, p).node.Dir?
    {
      b := IsDirectory(root, p);
    }

    /** `Files.createDirectories(p)`: on failure nothing has been created. */
    method CreateDirectories(p: Path) returns (r: Result<(), FsError>)
      requires Valid()
      modifies this
      ensures Valid()
      ensures match CreateDirs(old(root), p)
              case Ok(t) => r == Ok(()) && root == t
              case Err(e) => r == Err(e) && root == old(root)
      ensures r.Ok? ==> forall j :: 0 <= j <= |p| ==> IsDirectory(root, p[..j])
      ensures SameOffChain(old(root), root, p)
    {
      var c := CreateDirs(root, p);
      if c.Ok? {
        CreateDirsOk(root, p);
        root := c.value;
        r := Ok(());
      } else {
        r := Err(c.error);
      }
    }

    /** `Files.write(p, bytes)`: create or truncate, then write the whole content. */
    method Write(p: Path, content: string) returns (r: Result<(), FsError>)
      requires Valid()
      modifies this
      ensures Valid()
      ensures match WriteFile(old(root), p, content)
              case Ok(t) => r == Ok(()) && root == t
              case Err(e) => r == Err(e) && root == old(root)
      ensures r.Ok? ==> ReadAll(root, p) == Ok(content)
      ensures SameOffChain(old(root), root, p)
    {
      var w := WriteFile(root, p, content);
      if w.Ok? {
        WriteFileOk(root, p, content);
        root := w.value;
        r := Ok(());
      } else {
        r := Err(w.error);
      }
    }

    /** `Files.delete(p)`: removes a file or an empty directory. */
    method Delete(p: Path) returns (r: Result<(), FsError>)
      requires Valid()
      modifies this
      ensures Valid()
      ensures match Remove(old(root), p)
              case Ok(t) => r == Ok(()) && root == t
              case Err(e) => r == Err(e) && root == old(root)
      ensures r.Ok? ==> Lookup(root, p) == Missing
      ensures SameOffChain(old(root), root, p)
    {
      var d := Remove(root, p);
      if d.Ok? {
        RemoveOk(root, p);
        PutWellFormed(root, p, None);
        root := d.value;
        r := Ok(());
      } else {
        r := Err(d.error);
      }
    }
  }
}
