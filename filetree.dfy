/**
 * An abstract file system: a tree of directories and files, and the
 * `java.nio.file.Files` primitives the note store uses on it (read a whole
 * file, list a directory, create directories, write a file, delete an entry).
 *
 * The entries of a directory are kept in the order in which `Files.list`
 * yields them; a newly created entry is placed last.
 */
module FileTree {
  import opened Wrappers
  import opened Paths

  /**
   * A file holds its content; a directory holds its entries in listing order.
   * `listable` is false for a directory whose listing the operating system
   * refuses (for instance for lack of read permission).
   */
  datatype Node = File(content: string) | Dir(entries: seq<Entry>, listable: bool)
  datatype Entry = Entry(name: Name, node: Node)

  /** The three kinds of `IOException` the note store tells apart. */
  datatype FsError =
    | NoSuchFile          // NoSuchFileException
    | DirectoryNotEmpty   // DirectoryNotEmptyException
    | OtherIO             // any other IOException

  /** What a path leads to: an entry, nothing, or a file used as a directory (ENOTDIR). */
  datatype Located = Found(node: Node) | Missing | ThroughFile

  /** The first index of an entry named `x`. */
  function Find(es: seq<Entry>, x: Name): (r: Option<nat>)
    ensures r.Some? ==> r.value < |es| && es[r.value].name == x
    ensures r.Some? ==> forall j :: 0 <= j < r.value ==> es[j].name != x
    ensures r.None? <==> forall j :: 0 <= j < |es| ==> es[j].name != x
  {
    if es == [] then None
    else if es[0].name == x then Some(0)
    else match Find(es[1..], x)
      case None => None
      case Some(i) => Some(i + 1)
  }

  predicate DistinctNames(es: seq<Entry>) {
    forall i, j :: 0 <= i < j < |es| ==> es[i].name != es[j].name
  }

  /** Every directory of the tree has distinct entry names. */
  predicate WellFormed(n: Node)
    decreases n
  {
    match n
    case File(_) => true
    case Dir(es, _) => DistinctNames(es) && forall i :: 0 <= i < |es| ==> WellFormed(es[i].node)
  }

  /** The root of a file system is a well-formed directory. */
  predicate ValidRoot(t: Node) {
    t.Dir? && WellFormed(t)
  }

  /** Resolving a path name by name from `n`. */
  function Lookup(n: Node, p: Path): Located
    decreases p
  {
    if p == [] then Found(n)
    else match n
      case File(_) => ThroughFile
      case Dir(es, _) =>
        match Find(es, p[0])
        case None => Missing
        case Some(i) => Lookup(es[i].node, p[1..])
  }

  /** The entry named `x` replaced by `m`, removed when `m` is `None`, appended when absent. */
  function SetEntry(es: seq<Entry>, x: Name, m: Option<Node>): seq<Entry>
  {
    match Find(es, x)
    case Some(i) => (match m case Some(v) => es[i := Entry(x, v)] case None => es[..i] + es[i + 1..])
    case None => (match m case Some(v) => es + [Entry(x, v)] case None => es)
  }

  /**
   * The tree with the entry at `p` set to `m` (`None` detaches it). The tree is
   * left as it is when the parent of `p` is not a directory.
   */
  function Put(n: Node, p: Path, m: Option<Node>): Node
    decreases p
  {
    if p == [] then n
    else match n
      case File(_) => n
      case Dir(es, l) =>
        if |p| == 1 then Dir(SetEntry(es, p[0], m), l)
        else match Find(es, p[0])
          case None => n
          case Some(i) => Dir(es[i := Entry(p[0], Put(es[i].node, p[1..], m))], l)
  }

  function Names(es: seq<Entry>): seq<Name> {
    seq(|es|, i requires 0 <= i < |es| => es[i].name)
  }

  /** `Files.readAllBytes`: reading a directory fails with EISDIR. */
  function ReadAll(t: Node, p: Path): Result<string, FsError> {
    match Lookup(t, p)
    case Found(File(c)) => Ok(c)
    case Found(Dir(_, _)) => Err(OtherIO)
    case Missing => Err(NoSuchFile)
    case ThroughFile => Err(OtherIO)
  }

  /** `Files.list`: the names of a directory's entries, in listing order. */
  function ListNames(t: Node, p: Path): Result<seq<Name>, FsError> {
    match Lookup(t, p)
    case Found(Dir(es, listable)) => if listable then Ok(Names(es)) else Err(OtherIO)
    case Found(File(_)) => Err(OtherIO)   // NotDirectoryException
    case Missing => Err(NoSuchFile)
    case ThroughFile => Err(OtherIO)
  }

  /** `Files.isDirectory`: false for anything that is not an existing directory. */
  predicate IsDirectory(t: Node, p: Path) {
    Lookup(t, p).Found? && Lookup(t, p).node.Dir?
  }

  /**
   * `Files.createDirectories`: every missing directory from the top of `p`
   * down is created; an existing file anywhere on the way is an error (then
   * nothing has been created).
   */
  function CreateDirs(t: Node, p: Path): Result<Node, FsError>
    decreases |p|
  {
    if p == [] then (if t.Dir? then Ok(t) else Err(OtherIO))
    else
      var t1 :- CreateDirs(t, p[..|p| - 1]);
      match Lookup(t1, p)
      case Found(Dir(_, _)) => Ok(t1)
      case Found(File(_)) => Err(OtherIO)    // FileAlreadyExistsException
      case Missing => Ok(Put(t1, p, Some(Dir([], true))))
      case ThroughFile => Err(OtherIO)
  }

  /**
   * `Files.write` with its default options: the file is created, or truncated
   * and rewritten, in an existing parent directory.
   */
  function WriteFile(t: Node, p: Path, c: string): Result<Node, FsError> {
    if p == [] then Err(OtherIO)
    else match Lookup(t, p[..|p| - 1])
      case Missing => Err(NoSuchFile)
      case ThroughFile => Err(OtherIO)
      case Found(File(_)) => Err(OtherIO)
      case Found(Dir(_, _)) =>
        if Lookup(t, p).Found? && Lookup(t, p).node.Dir? then Err(OtherIO)   // EISDIR
        else Ok(Put(t, p, Some(File(c))))
  }

  /**
   * `Files.delete`: a file or an empty directory is removed. The root of the
   * file system cannot be removed (rmdir reports EBUSY), which surfaces as a
   * generic I/O error.
   */
  function Remove(t: Node, p: Path): Result<Node, FsError> {
    if p == [] then Err(OtherIO)
    else match Lookup(t, p)
      case Missing => Err(NoSuchFile)
      case ThroughFile => Err(OtherIO)
      case Found(File(_)) => Ok(Put(t, p, None))
      case Found(Dir(es, _)) => if es == [] then Ok(Put(t, p, None)) else Err(DirectoryNotEmpty)
  }

  /** Entries off the chain of `p` (that are neither `p` nor one of its ancestors) are the same in `t` and `u`. */
  ghost predicate SameOffChain(t: Node, u: Node, p: Path) {
    forall q :: !IsPrefix(q, p) && (Lookup(t, q).Found? || Lookup(u, q).Found?) ==> Lookup(u, q) == Lookup(t, q)
  }
}
