/** What saving and deleting a note do to the file system. */
module NoteControllerProps {
  import opened Wrappers
  import opened Paths
  import opened FileTree
  import opened FileTreeLemmas
  import opened NoteController

  predicate IsFileAt(t: Node, q: Path) {
    Lookup(t, q).Found? && Lookup(t, q).node.File?
  }

  /** `q` is a directory holding exactly one entry. */
  predicate HasSoleEntry(t: Node, q: Path) {
    IsDirectory(t, q) && |Lookup(t, q).node.entries| == 1
  }

  /**
   * The length of the highest prefix of `p` that an upward prune starting
   * below `p[..k]` removes: every directory from `p[..r]` to `p[..k - 1]` has
   * a single entry, and the one above them, if any, has another.
   */
  function ChainTop(t: Node, p: Path, k: nat): (r: nat)
    requires 1 <= k <= |p|
    ensures 1 <= r <= k
    ensures forall j :: r <= j < k ==> HasSoleEntry(t, p[..j])
    ensures r > 1 ==> !HasSoleEntry(t, p[..r - 1])
    decreases k
  {
    if k > 1 && HasSoleEntry(t, p[..k - 1]) then ChainTop(t, p, k - 1) else k
  }

  // ---------------------------------------------------------------- helpers

  /** Everything strictly above an existing entry is a directory. */
  lemma FoundPrefixesAreDirs(t: Node, p: Path)
    requires Lookup(t, p).Found?
    ensures forall j :: 0 <= j < |p| ==> IsDirectory(t, p[..j])
  {
    forall j | 0 <= j < |p| ensures IsDirectory(t, p[..j]) {
      LookupPrefix(t, p[..j], p);
    }
  }

  /** A change two or more levels below a directory keeps its number of entries. */
  lemma PutDeepKeepsCount(n: Node, q: Path, m: Option<Node>)
    requires n.Dir? && |q| >= 2
    ensures Put(n, q, m).Dir? && |Put(n, q, m).entries| == |n.entries|
  {
  }

  /** Detaching an ancestor after detaching `p` is detaching the ancestor. */
  lemma {:induction false} PutAbsorb(n: Node, p: Path, a: Path)
    requires IsPrefix(a, p) && 1 <= |a| < |p|
    ensures Put(Put(n, p, None), a, None) == Put(n, a, None)
    decreases a
  {
    match n {
      case File(_) =>
      case Dir(es, l) =>
        match Find(es, p[0]) {
          case None =>
          case Some(i) =>
            var v := Put(es[i].node, p[1..], None);
            var es' := es[i := Entry(p[0], v)];
            assert a[0] == p[0];
            FindUpdate(es, i, v, p[0]);
            if |a| == 1 {
              assert es'[..i] + es'[i + 1..] == es[..i] + es[i + 1..];
            } else {
              PrefixTail(a, p);
              PutAbsorb(es[i].node, p[1..], a[1..]);
              assert es'[i := Entry(a[0], Put(v, a[1..], None))] == es[i := Entry(a[0], Put(es[i].node, a[1..], None))];
            }
        }
    }
  }

  /** `ChainTop` only looks at the prefixes shorter than `|q|`. */
  lemma {:induction false} ChainTopAgree(t: Node, u: Node, p: Path, q: Path, k: nat)
    requires IsPrefix(q, p) && 1 <= k <= |q|
    requires forall j :: 1 <= j < |q| ==> HasSoleEntry(u, p[..j]) == HasSoleEntry(t, p[..j])
    ensures ChainTop(u, q, k) == ChainTop(t, p, k)
    decreases k
  {
    assert q[..k - 1] == p[..k - 1];
    if k > 1 {
      ChainTopAgree(t, u, p, q, k - 1);
    }
  }

  // ------------------------------------------------------------------ delete

  /** The upward prune changes nothing off the chain of the path it starts from. */
  lemma {:induction false} PruneUpFrame(t: Node, c: Path)
    requires WellFormed(t)
    ensures WellFormed(PruneUp(t, Some(c)).0) && PruneUp(t, Some(c)).0.Dir? == t.Dir?
    ensures SameOffChain(t, PruneUp(t, Some(c)).0, c)
    decreases |c|
  {
    match Remove(t, c) {
      case Ok(t1) =>
        RemoveOk(t, c);
        PutWellFormed(t, c, None);
        var pc := c[..|c| - 1];
        PruneUpFrame(t1, pc);
        assert IsPrefix(c, c);
        SameOffChainTrans(t, t1, PruneUp(t1, Some(pc)).0, c, pc, c);
      case Err(_) =>
    }
  }

  /** Deleting a note leaves everything off its chain of parent directories as it was. */
  lemma DeleteFrame(t: Node, p: Path)
    requires ValidRoot(t)
    ensures ValidRoot(DeleteOutcome(t, p).0)
    ensures SameOffChain(t, DeleteOutcome(t, p).0, p)
  {
    PruneUpFrame(t, p);
  }

  /**
   * Deleting a path that does not exist, or a directory that still holds
   * something, succeeds and changes nothing.
   */
  lemma DeleteRefused(t: Node, p: Path)
    requires Lookup(t, p) == Missing || (p != [] && IsDirectory(t, p) && Lookup(t, p).node.entries != [])
    ensures DeleteOutcome(t, p) == (t, Ok(()))
  {
  }

  /** Detaching an entry leaves its parent directory with one entry fewer. */
  lemma DetachedFromParent(t: Node, p: Path)
    requires WellFormed(t) && |p| >= 2 && Lookup(t, p).Found?
    ensures var pp := p[..|p| - 1];
      && IsDirectory(t, pp) && IsDirectory(Put(t, p, None), pp)
      && |Lookup(Put(t, p, None), pp).node.entries| + 1 == |Lookup(t, pp).node.entries|
  {
    var pp := p[..|p| - 1];
    FoundPrefixesAreDirs(t, p);
    LookupPrefix(t, pp, p);
    assert p[|pp|..] == [p[|p| - 1]];
    var d := Lookup(t, pp).node;
    LookupWellFormed(t, pp);
    var i := Find(d.entries, p[|p| - 1]).value;
    PutAncestor(t, p, None, pp);
    assert Lookup(Put(t, p, None), pp) == Found(Dir(d.entries[..i] + d.entries[i + 1..], d.listable));
  }

  /** Detaching an entry changes no entry count two or more levels above it. */
  lemma SoleEntriesAbove(t: Node, p: Path)
    requires Lookup(t, p).Found?
    ensures forall j :: 1 <= j < |p| - 1 ==> HasSoleEntry(Put(t, p, None), p[..j]) == HasSoleEntry(t, p[..j])
  {
    FoundPrefixesAreDirs(t, p);
    forall j | 1 <= j < |p| - 1 ensures HasSoleEntry(Put(t, p, None), p[..j]) == HasSoleEntry(t, p[..j]) {
      assert IsPrefix(p[..j], p);
      PutAncestor(t, p, None, p[..j]);
      assert p[|p[..j]|..] == p[j..];
      PutDeepKeepsCount(Lookup(t, p[..j]).node, p[j..], None);
    }
  }

  /** Detaching the only entry of a directory moves the top of the chain nowhere. */
  lemma ChainTopAfterDetach(t: Node, p: Path)
    requires |p| >= 2 && Lookup(t, p).Found? && HasSoleEntry(t, p[..|p| - 1])
    ensures ChainTop(Put(t, p, None), p[..|p| - 1], |p| - 1) == ChainTop(t, p, |p|)
  {
    SoleEntriesAbove(t, p);
    ChainTopAgree(t, Put(t, p, None), p, p[..|p| - 1], |p| - 1);
  }

  /**
   * Deleting an existing note (a file, or an empty directory) removes it
   * together with the whole run of parent directories it was the only entry
   * of, from the bottom up. The walk does not stop at the user's directory or
   * at the storage directory: it stops only at a directory that still holds
   * something else, or at the root of the file system, which cannot be
   * removed and so ends the request with an I/O failure.
   */
  lemma {:induction false} PruneCollapsesChain(t: Node, p: Path)
    requires ValidRoot(t) && p != [] && Lookup(t, p).Found?
    requires Lookup(t, p).node.File? || Lookup(t, p).node.entries == []
    ensures var k := ChainTop(t, p, |p|);
      DeleteOutcome(t, p) == (Put(t, p[..k], None), if k == 1 then Err(IOFailure) else Ok(()))
    decreases |p|
  {
    var t1 := Put(t, p, None);
    RemoveOk(t, p);
    PutWellFormed(t, p, None);
    var pp := p[..|p| - 1];
    assert DeleteOutcome(t, p) == PruneUp(t1, Some(pp));
    var k := ChainTop(t, p, |p|);
    if |p| == 1 {
      assert pp == [];
      assert p[..1] == p;
    } else {
      DetachedFromParent(t, p);
      if HasSoleEntry(t, pp) {
        assert Lookup(t1, pp).node.entries == [];
        PruneCollapsesChain(t1, pp);
        ChainTopAfterDetach(t, p);
        assert pp[..k] == p[..k];
        PutAbsorb(t, p, p[..k]);
      } else {
        assert Remove(t1, pp) == Err(DirectoryNotEmpty);
        assert p[..|p|] == p;
      }
    }
  }

  /** `/srv/kirby` holding only the user `u1`, who has a single note; `/srv` also holds `backup`. */
  function StorageExample(): Node {
    Dir([Entry("srv", Dir([
      Entry("kirby", Dir([Entry("u1", Dir([Entry("note", File("x"))], true))], true)),
      Entry("backup", Dir([], true))], true))], true)
  }

  lemma StorageExampleLookups()
    ensures var t := StorageExample();
      var p: Path := ["srv", "kirby", "u1", "note"];
      && Lookup(t, p[..1]) == Found(t.entries[0].node)
      && Lookup(t, p[..2]) == Found(t.entries[0].node.entries[0].node)
      && Lookup(t, p[..3]) == Found(t.entries[0].node.entries[0].node.entries[0].node)
      && Lookup(t, p) == Found(File("x"))
  {
    var t := StorageExample();
    var srv := t.entries[0].node;
    var kirby := srv.entries[0].node;
    var u1 := kirby.entries[0].node;
    var p: Path := ["srv", "kirby", "u1", "note"];
    assert Find(t.entries, "srv") == Some(0);
    assert Find(srv.entries, "kirby") == Some(0);
    assert Find(kirby.entries, "u1") == Some(0);
    assert Find(u1.entries, "note") == Some(0);
    assert p[..1] == ["srv"];
    assert Lookup(kirby, ["u1"]) == Found(u1);
    assert Lookup(srv, ["kirby", "u1"]) == Found(u1) by {
      assert ["kirby", "u1"][1..] == ["u1"];
    }
    assert p[..2] == ["srv", "kirby"] && Lookup(t, p[..2]) == Found(kirby) by {
      assert ["srv", "kirby"][1..] == ["kirby"];
    }
    assert p[..3] == ["srv", "kirby", "u1"] && Lookup(t, p[..3]) == Found(u1) by {
      assert ["srv", "kirby", "u1"][1..] == ["kirby", "u1"];
    }
    assert Lookup(t, p) == Found(File("x")) by {
      assert p[1..] == ["kirby", "u1", "note"];
      assert p[1..][1..] == ["u1", "note"];
      assert p[1..][1..][1..] == ["note"];
    }
  }

  lemma StorageExampleChain()
    ensures var p: Path := ["srv", "kirby", "u1", "note"];
      ValidRoot(StorageExample()) && Lookup(StorageExample(), p) == Found(File("x"))
      && ChainTop(StorageExample(), p, 4) == 2
  {
    var t := StorageExample();
    var p: Path := ["srv", "kirby", "u1", "note"];
    StorageExampleLookups();
    assert HasSoleEntry(t, p[..3]) && HasSoleEntry(t, p[..2]) && !HasSoleEntry(t, p[..1]);
    assert ChainTop(t, p, 2) == 2;
    var srv := t.entries[0].node;
    var kirby := srv.entries[0].node;
    assert WellFormed(kirby.entries[0].node) && WellFormed(kirby) && WellFormed(srv);
  }

  lemma StorageExampleDetach()
    ensures Put(StorageExample(), ["srv", "kirby"], None)
      == Dir([Entry("srv", Dir([Entry("backup", Dir([], true))], true))], true)
  {
    var t := StorageExample();
    var srv := t.entries[0].node;
    var backup := srv.entries[1];
    assert Find(t.entries, "srv") == Some(0);
    assert SetEntry(srv.entries, "kirby", None) == [backup];
    assert Put(srv, ["kirby"], None) == Dir([backup], true);
    assert ["srv", "kirby"][1..] == ["kirby"];
  }

  /**
   * The walk removes the user's directory and the storage directory once the
   * last note is gone: deleting the only note of `u1` under `/srv/kirby`
   * leaves `/srv` with nothing but `backup`, and the request succeeds.
   */
  lemma DeleteLastNoteRemovesStorage()
    ensures DeleteOutcome(StorageExample(), ["srv", "kirby", "u1", "note"])
      == (Dir([Entry("srv", Dir([Entry("backup", Dir([], true))], true))], true), Ok(()))
  {
    var p: Path := ["srv", "kirby", "u1", "note"];
    StorageExampleChain();
    PruneCollapsesChain(StorageExample(), p);
    StorageExampleDetach();
    assert p[..2] == ["srv", "kirby"];
  }

  // -------------------------------------------------------------------- save

  /** `createDirectories` on existing directories changes nothing. */
  lemma {:induction false} CreateDirsExisting(t: Node, p: Path)
    requires ValidRoot(t) && forall j :: 0 <= j <= |p| ==> IsDirectory(t, p[..j])
    ensures CreateDirs(t, p) == Ok(t)
    decreases |p|
  {
    if p != [] {
      var pp := p[..|p| - 1];
      assert forall j :: 0 <= j <= |pp| ==> pp[..j] == p[..j];
      CreateDirsExisting(t, pp);
      assert p[..|p|] == p;
    }
  }

  /** Once the parents exist, creating one more level fails exactly on a file. */
  lemma CreateDirsStep(t: Node, p: Path)
    requires ValidRoot(t) && p != [] && CreateDirs(t, p[..|p| - 1]).Ok?
    ensures CreateDirs(t, p).Ok? <==> !IsFileAt(t, p)
  {
    var pp := p[..|p| - 1];
    var t1 := CreateDirs(t, pp).value;
    CreateDirsOk(t, pp);
    assert pp[..|pp|] == pp;
    LookupPrefix(t1, pp, p);
    assert p[|pp|..] == [p[|p| - 1]];
    assert !IsPrefix(p, pp);
    assert IsFileAt(t1, p) <==> IsFileAt(t, p);
  }

  /** `createDirectories` succeeds exactly when no prefix of the path is a file. */
  lemma {:induction false} CreateDirsSucceedsIff(t: Node, p: Path)
    requires ValidRoot(t)
    ensures CreateDirs(t, p).Ok? <==> forall j :: 0 <= j <= |p| ==> !IsFileAt(t, p[..j])
    decreases |p|
  {
    if p == [] {
      assert p[..0] == [];
    } else {
      var pp := p[..|p| - 1];
      assert forall j :: 0 <= j <= |pp| ==> pp[..j] == p[..j];
      assert p[..|p|] == p;
      CreateDirsSucceedsIff(t, pp);
      if CreateDirs(t, pp).Ok? {
        CreateDirsStep(t, p);
      }
    }
  }

  /**
   * Saving succeeds exactly when the path names something below the root,
   * no directory on the way to it is a file, and it is not itself a directory.
   */
  lemma SaveSucceedsIff(t: Node, p: Path, c: string)
    requires ValidRoot(t)
    ensures SaveOutcome(t, p, Some(c)).1.Ok? <==>
      p != [] && (forall j :: 0 <= j < |p| ==> !IsFileAt(t, p[..j])) && !IsDirectory(t, p)
  {
    if p != [] {
      var pp := p[..|p| - 1];
      assert forall j :: 0 <= j <= |pp| ==> pp[..j] == p[..j];
      CreateDirsSucceedsIff(t, pp);
      if CreateDirs(t, pp).Ok? {
        var t1 := CreateDirs(t, pp).value;
        CreateDirsOk(t, pp);
        assert pp[..|pp|] == pp;
        assert !IsPrefix(p, pp);
        assert IsDirectory(t1, p) <==> IsDirectory(t, p);
      }
    }
  }

  /**
   * After a successful save, reading the note returns the saved content,
   * every directory above it exists, and nothing off its chain changed.
   */
  lemma SaveThenRead(t: Node, p: Path, c: string)
    requires ValidRoot(t) && SaveOutcome(t, p, Some(c)).1.Ok?
    ensures ValidRoot(SaveOutcome(t, p, Some(c)).0)
    ensures ReadAll(SaveOutcome(t, p, Some(c)).0, p) == Ok(c)
    ensures forall j :: 0 <= j < |p| ==> IsDirectory(SaveOutcome(t, p, Some(c)).0, p[..j])
    ensures SameOffChain(t, SaveOutcome(t, p, Some(c)).0, p)
  {
    var pp := p[..|p| - 1];
    var t1 := CreateDirs(t, pp).value;
    CreateDirsOk(t, pp);
    WriteFileOk(t1, p, c);
    var t2 := WriteFile(t1, p, c).value;
    SameOffChainTrans(t, t1, t2, pp, p, p);
    assert Lookup(t1, pp[..0]) == Found(t1);
    FoundPrefixesAreDirs(t2, p);
  }

  /** Saving over an existing note replaces its content and changes nothing else. */
  lemma SaveOverwrites(t: Node, p: Path, c0: string, c: string)
    requires ValidRoot(t) && p != [] && Lookup(t, p) == Found(File(c0))
    ensures SaveOutcome(t, p, Some(c)) == (Put(t, p, Some(File(c))), Ok(()))
  {
    var pp := p[..|p| - 1];
    FoundPrefixesAreDirs(t, p);
    assert forall j :: 0 <= j <= |pp| ==> pp[..j] == p[..j];
    CreateDirsExisting(t, pp);
    LookupPrefix(t, pp, p);
  }

  /**
   * A note without content is not written: the request fails, though the
   * parent directories may have been created, and the note itself is as it was.
   */
  lemma SaveWithoutContent(t: Node, p: Path)
    requires ValidRoot(t)
    ensures SaveOutcome(t, p, None).1.Err?
    ensures p != [] ==> SameOffChain(t, SaveOutcome(t, p, None).0, p[..|p| - 1])
  {
    if p != [] && CreateDirs(t, p[..|p| - 1]).Ok? {
      CreateDirsOk(t, p[..|p| - 1]);
    }
  }
}
