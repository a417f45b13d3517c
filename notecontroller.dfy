/**
 * The note endpoints: read, save and delete a note of a user, each guarded
 * against `..` and resolved to `rootDir/userId/path`. Delete removes the note
 * and then walks upwards removing each parent directory until a removal fails.
 */
module NoteController {
  import opened Wrappers
  import opened Paths
  import opened FileTree
  import opened FileSystems
  import opened NoteEntity

  /**
   * What a request ends with when it does not succeed: the two exceptions of
   * the service (`InvalidPathException`, `NoteNotFoundException`), a
   * `RuntimeException` wrapping an `IOException`, and a null dereference.
   */
  datatype ApiError = InvalidPath | NoteNotFound | IOFailure | NullReference

  /** The file system and the outcome after `saveNote` at physical path `p`. */
  function SaveOutcome(t: Node, p: Path, content: Option<string>): (Node, Result<(), ApiError>) {
    match Parent(p)
    case None => (t, Err(NullReference))             // createDirectories(null)
    case Some(parent) =>
      match CreateDirs(t, parent)
      case Err(_) => (t, Err(IOFailure))
      case Ok(t1) =>
        match content
        case None => (t1, Err(NullReference))       // getContent().getBytes() on null
        case Some(c) =>
          match WriteFile(t1, p, c)
          case Err(_) => (t1, Err(IOFailure))
          case Ok(t2) => (t2, Ok(()))
  }

  function Depth(current: Option<Path>): nat {
    match current case None => 0 case Some(c) => |c| + 1
  }

  /**
   * Deleting `current`, then its parent, and so on up to the root of the file
   * system, until a deletion fails: a missing entry or a non-empty directory
   * ends the walk normally, any other I/O error ends it with a failure.
   */
  function PruneUp(t: Node, current: Option<Path>): (Node, Result<(), ApiError>)
    decreases Depth(current)
  {
    match current
    case None => (t, Ok(()))
    case Some(c) =>
      match Remove(t, c)
      case Ok(t1) => PruneUp(t1, Parent(c))
      case Err(NoSuchFile) => (t, Ok(()))
      case Err(DirectoryNotEmpty) => (t, Ok(()))
      case Err(OtherIO) => (t, Err(IOFailure))
  }

  /** The file system and the outcome after `deleteNote` at physical path `p`. */
  function DeleteOutcome(t: Node, p: Path): (Node, Result<(), ApiError>) {
    PruneUp(t, Some(p))
  }

  class NoteController {
    /** The configured storage directory. */
    const rootDir: string

    constructor (rootDir: string)
      ensures this.rootDir == rootDir
    {
      this.rootDir := rootDir;
    }

    /** `serveNote`: the whole file as a note carrying the requested path. */
    method ServeNote(fs: FileSystem, userId: string, path: string) returns (r: Result<Note, ApiError>)
      ensures ContainsDotDot(path) ==> r == Err(InvalidPath)
      ensures !ContainsDotDot(path) ==>
        match ReadAll(fs.root, Resolve(rootDir, userId, path))
        case Ok(c) => r.Ok? && fresh(r.value) && r.value.path == Some(path) && r.value.content == Some(c)
        case Err(NoSuchFile) => r == Err(NoteNotFound)
        case Err(_) => r == Err(IOFailure)
    {
      if ContainsDotDot(path) {
        return Err(InvalidPath);
      }
      var p := Resolve(rootDir, userId, path);
      var bytes := fs.ReadAllBytes(p);
      match bytes {
        case Ok(c) =>
          var note := new Note(Some(path), Some(c));
          return Ok(note);
        case Err(NoSuchFile) =>
          return Err(NoteNotFound);
        case Err(_) =>
          return Err(IOFailure);
      }
    }

    /** `saveNote`: creates the missing parent directories, then writes the whole content. */
    method SaveNote(fs: FileSystem, userId: string, note: Note) returns (r: Result<(), ApiError>)
      requires fs.Valid()
      modifies fs
      ensures fs.Valid()
      ensures note.path.None? ==> r == Err(NullReference) && fs.root == old(fs.root)
      ensures note.path.Some? && ContainsDotDot(note.path.value) ==>
        r == Err(InvalidPath) && fs.root == old(fs.root)
      ensures note.path.Some? && !ContainsDotDot(note.path.value) ==>
        (fs.root, r) == SaveOutcome(old(fs.root), Resolve(rootDir, userId, note.path.value), note.content)
    {
      var path := note.GetPath();
      if path.None? {
        return Err(NullReference);
      }
      if ContainsDotDot(path.value) {
        return Err(InvalidPath);
      }
      var p := Resolve(rootDir, userId, path.value);
      var parent := Parent(p);
      if parent.None? {
        return Err(NullReference);
      }
      var made := fs.CreateDirectories(parent.value);
      if made.Err? {
        return Err(IOFailure);
      }
      var content := note.GetContent();
      if content.None? {
        return Err(NullReference);
      }
      var written := fs.Write(p, content.value);
      if written.Err? {
        return Err(IOFailure);
      }
      return Ok(());
    }

    /**
     * `deleteNote`: deletes the note, then its parent directory, then that
     * one's parent, and so on while `current != null`. A missing entry or a
     * non-empty directory ends the walk without error.
     */
    method DeleteNote(fs: FileSystem, userId: string, path: string) returns (r: Result<(), ApiError>)
      requires fs.Valid()
      modifies fs
      ensures fs.Valid()
      ensures ContainsDotDot(path) ==> r == Err(InvalidPath) && fs.root == old(fs.root)
      ensures !ContainsDotDot(path) ==> (fs.root, r) == DeleteOutcome(old(fs.root), Resolve(rootDir, userId, path))
    {
      if ContainsDotDot(path) {
        return Err(InvalidPath);
      }
      var p := Resolve(rootDir, userId, path);
      var deleted := fs.Delete(p);
      if deleted.Err? {
        return if deleted.error == OtherIO then Err(IOFailure) else Ok(());
      }
      var current := Parent(p);
      while current.Some?
        invariant fs.Valid()
        invariant PruneUp(fs.root, current) == DeleteOutcome(old(fs.root), p)
        decreases Depth(current)
      {
        var step := fs.Delete(current.value);
        if step.Err? {
          return if step.error == OtherIO then Err(IOFailure) else Ok(());
        }
        current := Parent(current.value);
      }
      return Ok(());
    }
  }
}
