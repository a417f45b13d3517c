# Kirby note store: a Dafny model

Kirby stores each user's notes as plain files. A note lives under
`<storage directory>/<user id>/<relative path>`. The service has four parts,
and the model covers each of them.

- **`NoteController`** reads, saves and deletes notes.
  - All three endpoints first reject any relative path that contains `..`.
  - Save creates the missing parent directories before it writes.
  - Delete removes the note. It then walks up the parent chain and removes each parent until a removal fails.
- **`PathNode`** mirrors a directory as a tree of nodes. A directory is a node with a children array; a file is a leaf with no children.
- **`Utils.getTree`** is a second copy of the same tree builder.
- **`Note`** is a mutable (path, content) record.

The file system is an in-memory tree, `FileTree.Node` = `File(content) | Dir(entries, listable)`.
- The entries of a directory are kept in listing order, and `Put` appends a new entry at the end.
- `listable = false` marks a directory whose listing fails.
- A path is the sequence of names below the root of the file system. The empty path is `/`.
- `java.nio.file` operations become total functions over the tree:
  - `FileTree.ReadAll` stands for `readAllBytes` and returns `Result<string, FsError>`.
  - `FileTree.ListNames` stands for `list` and returns `Result<seq<Name>, FsError>`.
  - `FileTree.IsDirectory` stands for `isDirectory` and is a predicate.
  - `FileTree.CreateDirs` stands for `createDirectories` and returns the new tree as `Result<Node, FsError>`.
  - `FileTree.WriteFile` stands for `write` and returns the new tree as `Result<Node, FsError>`.
  - `FileTree.Remove` stands for `delete` and returns the new tree as `Result<Node, FsError>`.
- `FsError` separates `NoSuchFileException` and `DirectoryNotEmptyException` from every other `IOException`.
- The class `FileSystems.FileSystem` holds the current tree in a field. Its methods update that field in place.

The controller is a class whose methods change a `FileSystem`. Each method is proved equal to a specification function:
- `SaveNote` to `SaveOutcome`;
- `DeleteNote` to `DeleteOutcome`, which is `PruneUp` applied to the note's path.

`DeleteNote` keeps the source's `while (current != null)` loop. The loop invariant says that pruning the rest of the way from `current` gives the same result as the whole operation. The loop ends because `current` gets one name shorter each step.

The delete loop does not stop at the user's directory. For an absolute storage directory it climbs to the root of the file system and stops only when a deletion fails. So deleting a user's last note removes the user's directory, and then the storage directory too if it has become empty. `NoteControllerProps.DeleteLastNoteRemovesStorage` works through a concrete case. If the whole chain up to a top-level directory gets emptied, the root cannot be removed, and the request ends in an I/O failure (`k == 1` in `PruneCollapsesChain`). Nothing in the code bounds the walk by the user's directory.

## Model

| member | source | states |
|---|---|---|
| Paths.ContainsDotDot | src/main/java/hive/kirby/controller/NoteController.java:28 | true exactly when two consecutive characters of the path are both `.` |
| Paths.GuardBySegments | src/main/java/hive/kirby/controller/NoteController.java:28-30 | the substring guard rejects a path exactly when one of its names contains `..`; splitting at separators never creates or hides a `..` |
| Paths.GuardedPathHasNoParentName | src/main/java/hive/kirby/controller/NoteController.java:28-32 | a path the guard accepts has no `..` name, so it cannot climb out of the user's directory |
| Paths.GuardOverRejects | src/main/java/hive/kirby/controller/NoteController.java:28-30 | the guard also rejects the harmless single name `a..b` |
| Paths.SegmentsAreNames | src/main/java/hive/kirby/controller/NoteController.java:32 | the names of a path string are non-empty and contain no separator |
| Paths.SegmentsOfJoin | src/main/java/hive/kirby/controller/NoteController.java:32 | joining two strings with a separator concatenates their lists of names |
| Paths.Resolve | src/main/java/hive/kirby/controller/NoteController.java:32 | `Paths.get(rootDir, userId, path)` is the names of the storage directory, then those of the user id, then those of the relative path |
| Paths.Parent | src/main/java/hive/kirby/controller/NoteController.java:77-80 | `getParent` is null exactly at the root; otherwise it is the path one name shorter, a prefix of it |
| FileTreeLemmas.RemoveOk | src/main/java/hive/kirby/controller/NoteController.java:76 | `Files.delete` succeeds only on an existing file or empty directory below the root; afterwards the entry is gone and nothing off its chain has changed |
| FileTreeLemmas.WriteFileOk | src/main/java/hive/kirby/controller/NoteController.java:58 | a successful `Files.write` puts exactly the new content at the path, keeps the tree well formed and changes nothing off the chain |
| FileTreeLemmas.CreateDirsOk | src/main/java/hive/kirby/controller/NoteController.java:57 | a successful `createDirectories` leaves a directory at every prefix of the path and changes nothing off the chain |
| FileSystems.FileSystem.ReadAllBytes | src/main/java/hive/kirby/controller/NoteController.java:35 | returns the file's content, fails with "no such file" exactly when the path is missing, and changes nothing |
| FileSystems.FileSystem.List | src/main/java/hive/kirby/entity/PathNode.java:30 | lists the names of a listable directory in order; anything else fails; changes nothing |
| FileSystems.FileSystem.IsDir | src/main/java/hive/kirby/entity/PathNode.java:32 | true exactly when the path is a directory |
| FileSystems.FileSystem.CreateDirectories | src/main/java/hive/kirby/controller/NoteController.java:57 | replaces the tree by `createDirectories`' result, or leaves it unchanged on error; afterwards every prefix is a directory |
| FileSystems.FileSystem.Write | src/main/java/hive/kirby/controller/NoteController.java:58 | replaces the tree by the write's result, or leaves it unchanged on error; afterwards reading the path gives the content |
| FileSystems.FileSystem.Delete | src/main/java/hive/kirby/controller/NoteController.java:76-79 | replaces the tree by the deletion's result, or leaves it unchanged on error; afterwards the path is missing |
| NoteController.NoteController.ServeNote | src/main/java/hive/kirby/controller/NoteController.java:28-40 | `..` gives InvalidPath; otherwise a new note holding the requested path and the file's whole content, NoteNotFound for a missing file, an I/O failure for anything else; the file system is untouched |
| NoteController.NoteController.SaveNote | src/main/java/hive/kirby/controller/NoteController.java:48-61 | a null path is a null dereference and `..` gives InvalidPath, both with nothing changed; otherwise the new file system and the result are `SaveOutcome` of the old one |
| NoteController.NoteController.DeleteNote | src/main/java/hive/kirby/controller/NoteController.java:69-86 | `..` gives InvalidPath with nothing changed; otherwise the loop ends with the file system and the result of `DeleteOutcome` |
| NoteControllerProps.ChainTop | src/main/java/hive/kirby/controller/NoteController.java:77-82 | the top of the run of single-entry parent directories above a path: each one from there down has exactly one entry, and the directory above them, if any, does not have exactly one |
| NoteControllerProps.PruneCollapsesChain | src/main/java/hive/kirby/controller/NoteController.java:76-85 | deleting an existing file or empty directory removes exactly the subtree at the top of its run of single-entry parents and nothing else; it succeeds unless that run reaches a top-level directory, where removing the root fails |
| NoteControllerProps.PruneUpFrame | src/main/java/hive/kirby/controller/NoteController.java:77-81 | the upward walk keeps the tree well formed, never removes the root, and changes nothing off the chain of the path it starts from |
| NoteControllerProps.DeleteFrame | src/test/java/hive/kirby/controller/NoteControllerTest.java:257-281 | deleting a note leaves every entry off its parent chain, siblings included, as it was |
| NoteControllerProps.DeleteRefused | src/main/java/hive/kirby/controller/NoteController.java:76-82 | deleting a missing path, or a directory that is not empty, succeeds and changes nothing |
| NoteControllerProps.StorageExampleChain | src/main/java/hive/kirby/controller/NoteController.java:78-81 | in the example tree the run of single-entry parents above the note starts at the storage directory |
| NoteControllerProps.StorageExampleDetach | src/main/java/hive/kirby/controller/NoteController.java:79 | removing the storage directory from the example tree leaves its sibling `backup` as it was |
| NoteControllerProps.DeleteLastNoteRemovesStorage | src/main/java/hive/kirby/controller/NoteController.java:76-81 | deleting the only note of the only user removes the user's directory and the storage directory, keeps `/srv/backup`, and succeeds |
| NoteControllerProps.CreateDirsExisting | src/main/java/hive/kirby/controller/NoteController.java:57 | `createDirectories` on existing directories changes nothing |
| NoteControllerProps.CreateDirsSucceedsIff | src/main/java/hive/kirby/controller/NoteController.java:57 | `createDirectories` succeeds exactly when no prefix of the path is a file |
| NoteControllerProps.SaveSucceedsIff | src/main/java/hive/kirby/controller/NoteController.java:56-61 | saving succeeds exactly when the path is below the root, no directory on the way to it is a file, and it is not itself a directory |
| NoteControllerProps.SaveThenRead | src/test/java/hive/kirby/controller/NoteControllerTest.java:181-206 | after a successful save every parent directory exists, reading the note gives the saved content, and nothing off its chain changed |
| NoteControllerProps.SaveOverwrites | src/test/java/hive/kirby/controller/NoteControllerTest.java:231-255 | saving over an existing note succeeds and replaces exactly its content; nothing is appended or merged |
| NoteControllerProps.SaveWithoutContent | src/main/java/hive/kirby/controller/NoteController.java:57-58 | a note without content is never written: the request fails, though parent directories may already have been created |
| PathNodeEntity.Leaf | src/main/java/hive/kirby/entity/PathNode.java:17-20 | a file node has the given name and null children |
| PathNodeEntity.Branch | src/main/java/hive/kirby/entity/PathNode.java:22-25 | a directory node has the given name and children |
| PathNodeEntity.EmptyDirInstance | src/main/java/hive/kirby/entity/PathNode.java:44-46 | a node with the given name and an empty, non-null children array |
| PathNodeEntity.RootNode | src/main/java/hive/kirby/entity/PathNode.java:12-15 | the public constructor builds a node named `root` whose children are the listing of the directory, and fails exactly when that listing fails |
| PathNodeEntity.GetChildren | src/main/java/hive/kirby/entity/PathNode.java:27-42 | the loop over the listing returns the mirror of the directory's entries, or the I/O error that aborts the build |
| PathNodeEntity.MirrorShape | src/main/java/hive/kirby/entity/PathNode.java:29-38 | one node per entry, in listing order, each named after its entry; children present exactly for directories, and built from that directory's own entries |
| PathNodeEntity.MirrorOkEach | src/main/java/hive/kirby/entity/PathNode.java:39-41 | the build succeeds exactly when every entry can be built |
| PathNodeEntity.ListableIffBuilds | src/main/java/hive/kirby/entity/PathNode.java:30-41 | a subtree builds exactly when every directory in it can be listed; one failure anywhere fails the whole build |
| PathNodeEntity.ChildrenAtOkIff | src/main/java/hive/kirby/entity/PathNode.java:27-42 | `getChildren` succeeds exactly on a directory all of whose subdirectories can be listed |
| PathNodeEntity.EmptyDirectoryTree | src/main/java/hive/kirby/entity/PathNode.java:12-14 | an empty directory yields the same node as `getEmptyDirInstance("root")` |
| PathNodeEntity.SingleNoteTree | src/test/java/hive/kirby/controller/HomeControllerTest.java:45-64 | a user directory holding only `test/path` yields root → `test` → leaf `path` |
| Utils.GetTree | src/main/java/hive/kirby/util/Utils.java:14-29 | returns what `PathNode.getChildren` is specified to return for the same path, so the two builders agree on every file system |
| NoteEntity.Note.Blank | src/main/java/hive/kirby/entity/Note.java:7-8 | the no-argument constructor leaves path and content unset |
| NoteEntity.Note.constructor | src/main/java/hive/kirby/entity/Note.java:10-13 | stores path and content as given |
| NoteEntity.Note.GetPath | src/main/java/hive/kirby/entity/Note.java:15-17 | returns the path and changes nothing |
| NoteEntity.Note.SetPath | src/main/java/hive/kirby/entity/Note.java:19-21 | updates the path only; the content is unchanged |
| NoteEntity.Note.GetContent | src/main/java/hive/kirby/entity/Note.java:23-25 | returns the content and changes nothing |
| NoteEntity.Note.SetContent | src/main/java/hive/kirby/entity/Note.java:27-29 | updates the content only; the path is unchanged |

## Left out

- HTTP layer. Spring bindings and the mapping of the service's exceptions to status codes are left out. Outcomes are the `ApiError` values in `NoteController`.
- Content encoding. `new String(bytes)` and `getBytes()` are left out. Content is an opaque string. Path encoding is covered in the `Paths.Resolve` line below.
- Concurrency. Requests running at the same time are not modelled; the code takes no locks.
- Real file-system features beyond a generic failure are left out: symbolic links, permissions and devices.
  - The only kind of unreadable directory modelled is one with `listable = false`.
  - Removing the root of the file system fails, as `rmdir("/")` does.
- Order of `Files.list`. The order is given by the tree's entry order; the platform's real order is not modelled.
- The stream returned by `Files.list` in `PathNode.getChildren` and `Utils.getTree` is never closed, so each build leaks one open directory handle per listed directory. The model has no open handles.
- The `UncheckedIOException` that a listing stream can throw half-way is not modelled. A directory is either listable as a whole or not at all.
- Path normalisation. `Paths.get` is modelled as a join followed by a split at `/`, which drops empty names.
  - `.` and `..` are plain names to the model. A `.` in the relative path passes the guard and reaches the file system, where `a/./b` names the same file as `a/b`; the model instead treats `.` as a literal entry, so saving to `a/./b` creates a directory named `.` in the model.
  - The guard checks only the relative path. A `..` inside the user id or the storage directory is never checked and, on a real file system, climbs out of the user's directory; the model treats it as a literal name and so does not capture that escape.
  - A relative or empty storage directory is taken as starting at the root. This loses two behaviours of a relative path:
    - In `deleteNote`, `getParent()` of a relative path's first name is null, so the walk ends normally after removing that name. If the whole chain empties, the request succeeds, where the model reports an I/O failure from trying to remove the root.
    - In `saveNote`, with an empty storage directory and an empty user id, a single-name note has no parent, and `createDirectories(null)` throws a NullPointerException. The model sees a one-name path whose parent is the root, so it saves the note.
- Paths.Resolve: has no failure outcome. `Paths.get` throws the unchecked `java.nio.file.InvalidPathException` when the storage directory, the user id or the path contains a NUL character, so the request fails before any file access; the model treats NUL as an ordinary character, and the endpoints then answer as for any other name (typically NoteNotFound on read). `Paths.get` also converts the joined path to bytes in the platform's path encoding, and it throws the same exception for any character that encoding cannot map. A lone UTF-16 surrogate fails under every locale. Under a C/POSIX locale, any non-ASCII character fails too, so saving the path `café` there ends the request with an unchecked exception and creates nothing. The model resolves such a path like any other (`Resolve("/data", "u1", "café") == ["data", "u1", "café"]`), and the save creates the file. A Dafny `char` is never a surrogate, so a Java string holding a lone surrogate has no model input at all.
- An absent request body, meaning a null `Note`, is not modelled. A null path or null content is, as `NullReference`.
- `HomeController` and the builder it delegates to are not part of this model. That includes the empty root tree for a missing user directory at src/test/java/hive/kirby/controller/HomeControllerTest.java:66-76.
- `Utils.getTree` constructs `PathNode` through constructors that are private to `PathNode`. The model treats it as the same construction, and does not reflect that this does not compile.
- Utils.GetTree: its equality with `PathNode.getChildren` is stated through their shared postcondition `r == ChildrenAt(fs.root, path)`. No lemma relates the two methods directly, because Dafny lemmas cannot call methods.
