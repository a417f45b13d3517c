/** How lookups, updates and the file-system primitives interact. */
module FileTreeLemmas {
  import opened Wrappers
  import opened Paths
  import opened FileTree

  lemma FindDistinct(es: seq<Entry>, i: nat)
    requires DistinctNames(es) && i < |es|
    ensures Find(es, es[i].name) == Some(i)
  {
  }

  lemma {:induction false} FindSameNames(es: seq<Entry>, fs: seq<Entry>, y: Name)
    requires |es| == |fs| && forall j :: 0 <= j < |es| ==> es[j].name == fs[j].name
    ensures Find(es, y) == Find(fs, y)
  {
    if es != [] && es[0].name != y {
      FindSameNames(es[1..], fs[1..], y);
    }
  }

  lemma FindUpdate(es: seq<Entry>, i: nat, v: Node, y: Name)
    requires i < |es|
    ensures Find(es[i := Entry(es[i].name, v)], y) == Find(es, y)
  {
    FindSameNames(es, es[i := Entry(es[i].name, v)], y);
  }

  /** `k` is the first index named `x`. */
  lemma FindFirst(es: seq<Entry>, x: Name, k: nat)
    requires k < |es| && es[k].name == x && forall j :: 0 <= j < k ==> es[j].name != x
    ensures Find(es, x) == Some(k)
  {
    assert es[k].name == x;
  }

  lemma FindConcat(a: seq<Entry>, b: seq<Entry>, y: Name)
    ensures Find(a + b, y) == match Find(a, y)
                              case Some(i) => Some(i)
                              case None => (match Find(b, y) case Some(j) => Some(|a| + j) case None => None)
  {
    match Find(a, y) {
      case Some(i) =>
        assert forall j :: 0 <= j <= i ==> (a + b)[j] == a[j];
        FindFirst(a + b, y, i);
      case None =>
        FindConcatRight(a, b, y);
    }
  }

  lemma FindConcatRight(a: seq<Entry>, b: seq<Entry>, y: Name)
    requires forall j :: 0 <= j < |a| ==> a[j].name != y
    ensures Find(a + b, y) == match Find(b, y) case Some(j) => Some(|a| + j) case None => None
  {
    var ab := a + b;
    var n := match Find(b, y) case Some(j) => |a| + j case None => |ab|;
    forall k | 0 <= k < n ensures ab[k].name != y {
      if k >= |a| {
        assert ab[k] == b[k - |a|];
      } else {
        assert ab[k] == a[k];
      }
    }
    if n < |ab| {
      assert ab[n] == b[n - |a|];
      FindFirst(ab, y, n);
    }
  }

  /** The node reached through the entry named `y` of a directory. */
  function ChildOf(es: seq<Entry>, y: Name): Option<Node> {
    match Find(es, y) case Some(i) => Some(es[i].node) case None => None
  }

  lemma ChildOfSetEntry(es: seq<Entry>, x: Name, m: Option<Node>, y: Name)
    requires DistinctNames(es)
    ensures ChildOf(SetEntry(es, x, m), y) == if y == x then m else ChildOf(es, y)
  {
    match Find(es, x) {
      case Some(i) =>
        match m {
          case Some(v) => FindUpdate(es, i, v, y);
          case None => ChildOfRemoved(es, i, y);
        }
      case None =>
        match m {
          case Some(v) => FindConcat(es, [Entry(x, v)], y);
          case None =>
        }
    }
  }

  /** Where the entries of `es` end up once entry `i` is taken out. */
  lemma RemovedAt(es: seq<Entry>, i: nat, j: nat)
    requires i < |es| && j < |es| - 1
    ensures (es[..i] + es[i + 1..])[j] == if j < i then es[j] else es[j + 1]
  {
  }

  lemma ChildOfRemoved(es: seq<Entry>, i: nat, y: Name)
    requires DistinctNames(es) && i < |es| && Find(es, es[i].name) == Some(i)
    ensures ChildOf(es[..i] + es[i + 1..], y) == if y == es[i].name then None else ChildOf(es, y)
  {
    if Find(es, y).None? || y == es[i].name {
      RemovedAbsent(es, i, y);
    } else {
      RemovedPresent(es, i, y, Find(es, y).value);
    }
  }

  /** A name that was absent, or was the removed one, is absent after the removal. */
  lemma RemovedAbsent(es: seq<Entry>, i: nat, y: Name)
    requires DistinctNames(es) && i < |es|
    requires y == es[i].name || forall j :: 0 <= j < |es| ==> es[j].name != y
    ensures Find(es[..i] + es[i + 1..], y).None?
  {
    var r := es[..i] + es[i + 1..];
    forall j | 0 <= j < |r| ensures r[j].name != y {
      RemovedAt(es, i, j);
      if j >= i {
        assert es[j + 1].name != es[i].name;
      }
    }
  }

  /** Another name keeps its entry after the removal, shifted down when it came later. */
  lemma RemovedPresent(es: seq<Entry>, i: nat, y: Name, k: nat)
    requires i < |es| && Find(es, y) == Some(k) && k != i
    ensures Find(es[..i] + es[i + 1..], y) == Some(if k < i then k else k - 1)
    ensures (es[..i] + es[i + 1..])[if k < i then k else k - 1] == es[k]
  {
    var r := es[..i] + es[i + 1..];
    var k' := if k < i then k else k - 1;
    RemovedAt(es, i, k');
    forall j | 0 <= j < k' ensures r[j].name != y {
      RemovedAt(es, i, j);
    }
    FindFirst(r, y, k');
  }

  lemma SetEntryDistinct(es: seq<Entry>, x: Name, m: Option<Node>)
    requires DistinctNames(es)
    ensures DistinctNames(SetEntry(es, x, m))
  {
    match Find(es, x) {
      case Some(i) =>
        if m.None? {
          var r := es[..i] + es[i + 1..];
          forall a, b | 0 <= a < b < |r| ensures r[a].name != r[b].name {
            RemovedAt(es, i, a);
            RemovedAt(es, i, b);
          }
        }
      case None =>
    }
  }

  /** Looking up `a + b` is looking up `a`, then `b` from there. */
  lemma {:induction false} LookupConcat(n: Node, a: Path, b: Path)
    ensures Lookup(n, a + b) == if Lookup(n, a).Found? then Lookup(Lookup(n, a).node, b) else Lookup(n, a)
    decreases a
  {
    if a == [] {
      assert a + b == b;
    } else {
      assert (a + b)[0] == a[0] && (a + b)[1..] == a[1..] + b;
      match n
      case File(_) =>
      case Dir(es, _) =>
        match Find(es, a[0])
        case None =>
        case Some(i) => LookupConcat(es[i].node, a[1..], b);
    }
  }

  lemma LookupPrefix(n: Node, a: Path, p: Path)
    requires IsPrefix(a, p)
    ensures Lookup(n, p) == if Lookup(n, a).Found? then Lookup(Lookup(n, a).node, p[|a|..]) else Lookup(n, a)
  {
    assert p == a + p[|a|..];
    LookupConcat(n, a, p[|a|..]);
  }

  lemma {:induction false} LookupWellFormed(n: Node, p: Path)
    requires WellFormed(n) && Lookup(n, p).Found?
    ensures WellFormed(Lookup(n, p).node)
    decreases p
  {
    if p != [] {
      var i := Find(n.entries, p[0]).value;
      LookupWellFormed(n.entries[i].node, p[1..]);
    }
  }

  /** Putting an entry at `p` keeps every directory's names distinct. */
  lemma {:induction false} PutWellFormed(n: Node, p: Path, m: Option<Node>)
    requires WellFormed(n) && (m.Some? ==> WellFormed(m.value))
    ensures WellFormed(Put(n, p, m)) && Put(n, p, m).Dir? == n.Dir?
    decreases p
  {
    if p != [] && n.Dir? {
      var es := n.entries;
      if |p| == 1 {
        SetEntryDistinct(es, p[0], m);
        var r := SetEntry(es, p[0], m);
        forall j | 0 <= j < |r| ensures WellFormed(r[j].node) {
          match Find(es, p[0])
          case Some(i) =>
            if m.None? {
              assert r[j] == if j < i then es[j] else es[j + 1];
            }
          case None =>
        }
      } else {
        match Find(es, p[0])
        case None =>
        case Some(i) =>
          PutWellFormed(es[i].node, p[1..], m);
      }
    }
  }

  /** An update at `p` is seen from an ancestor `a` of `p` as an update at the rest of the path. */
  lemma {:induction false} PutAncestor(n: Node, p: Path, m: Option<Node>, a: Path)
    requires IsPrefix(a, p) && |a| < |p| && Lookup(n, a).Found?
    ensures Lookup(Put(n, p, m), a) == Found(Put(Lookup(n, a).node, p[|a|..], m))
    decreases a
  {
    if a != [] {
      var es := n.entries;
      var i := Find(es, a[0]).value;
      assert p[0] == a[0];
      var v := Put(es[i].node, p[1..], m);
      FindUpdate(es, i, v, a[0]);
      assert es[i].name == p[0];
      PutAncestor(es[i].node, p[1..], m, a[1..]);
      assert p[1..][|a[1..]|..] == p[|a|..];
    }
  }

  /** After an update at `p`, `p` leads to the new node, or to nothing for a removal. */
  lemma PutAt(n: Node, p: Path, m: Option<Node>)
    requires WellFormed(n) && p != [] && IsDirectory(n, p[..|p| - 1])
    ensures Lookup(Put(n, p, m), p) == match m case Some(v) => Found(v) case None => Missing
  {
    var a := p[..|p| - 1];
    var x := p[|p| - 1];
    var d := Lookup(n, a).node;
    PutAncestor(n, p, m, a);
    assert p[|a|..] == [x];
    LookupWellFormed(n, a);
    LookupPrefix(Put(n, p, m), a, p);
    ChildOfSetEntry(d.entries, x, m, x);
  }

  /** An update at `p` changes nothing at paths that are neither ancestors nor descendants of `p`. */
  lemma {:induction false} PutOutside(n: Node, p: Path, m: Option<Node>, q: Path)
    requires WellFormed(n) && !IsPrefix(p, q) && !IsPrefix(q, p)
    ensures Lookup(Put(n, p, m), q) == Lookup(n, q)
    decreases p
  {
    assert p != [] && q != [];
    match n
    case File(_) =>
    case Dir(es, l) =>
      if |p| == 1 {
        assert p[0] != q[0];
        ChildOfSetEntry(es, p[0], m, q[0]);
      } else {
        match Find(es, p[0])
        case None =>
        case Some(i) =>
          var v := Put(es[i].node, p[1..], m);
          FindUpdate(es, i, v, q[0]);
          if p[0] == q[0] {
            PrefixTail(p, q);
            PrefixTail(q, p);
            PutOutside(es[i].node, p[1..], m, q[1..]);
          }
      }
  }

  lemma PrefixTail(a: Path, b: Path)
    requires a != [] && b != [] && a[0] == b[0]
    ensures IsPrefix(a, b) <==> IsPrefix(a[1..], b[1..])
  {
    if IsPrefix(a[1..], b[1..]) {
      assert b[..|a|] == [b[0]] + b[1..][..|a| - 1];
    }
    if IsPrefix(a, b) {
      assert b[1..][..|a| - 1] == b[..|a|][1..];
    }
  }

  /** Below a path that leads nowhere, nothing is found. */
  lemma BelowNotFound(n: Node, a: Path, q: Path)
    requires IsPrefix(a, q) && |a| < |q|
    requires !Lookup(n, a).Found? || Lookup(n, a).node.File? || Lookup(n, a).node.entries == []
    ensures !Lookup(n, q).Found?
  {
    LookupPrefix(n, a, q);
    if Lookup(n, a).Found? {
      var d := Lookup(n, a).node;
      var r := q[|a|..];
      assert r != [];
      if d.Dir? { assert Find(d.entries, r[0]) == None; }
    }
  }

  lemma SameOffChainTrans(t: Node, u: Node, w: Node, a: Path, b: Path, p: Path)
    requires IsPrefix(a, p) && IsPrefix(b, p)
    requires SameOffChain(t, u, a) && SameOffChain(u, w, b)
    ensures SameOffChain(t, w, p)
  {
    forall q | !IsPrefix(q, p) && (Lookup(t, q).Found? || Lookup(w, q).Found?)
      ensures Lookup(w, q) == Lookup(t, q)
    {
      PrefixTrans(q, a, p);
      PrefixTrans(q, b, p);
    }
  }

  lemma PrefixTrans(a: Path, b: Path, c: Path)
    requires IsPrefix(b, c)
    ensures IsPrefix(a, b) ==> IsPrefix(a, c)
  {
    if IsPrefix(a, b) {
      assert c[..|a|] == c[..|b|][..|a|];
    }
  }

  /** A removal succeeds only on a file or an empty directory, and changes nothing off the chain. */
  lemma RemoveOk(t: Node, p: Path)
    requires WellFormed(t) && Remove(t, p).Ok?
    ensures p != [] && Lookup(t, p).Found?
    ensures Lookup(t, p).node.File? || Lookup(t, p).node.entries == []
    ensures Remove(t, p).value == Put(t, p, None)
    ensures WellFormed(Remove(t, p).value)
    ensures Lookup(Remove(t, p).value, p) == Missing
    ensures SameOffChain(t, Remove(t, p).value, p)
  {
    var u := Put(t, p, None);
    var a := p[..|p| - 1];
    PutWellFormed(t, p, None);
    LookupPrefix(t, a, p);
    assert p[|a|..] == [p[|p| - 1]];
    assert IsDirectory(t, a);
    PutAt(t, p, None);
    forall q | !IsPrefix(q, p) && (Lookup(t, q).Found? || Lookup(u, q).Found?)
      ensures Lookup(u, q) == Lookup(t, q)
    {
      if IsPrefix(p, q) {
        BelowNotFound(t, p, q);
        BelowNotFound(u, p, q);
      } else {
        PutOutside(t, p, None, q);
      }
    }
  }

  /** A successful write leaves exactly the new content at `p` and changes nothing off the chain. */
  lemma WriteFileOk(t: Node, p: Path, c: string)
    requires WellFormed(t) && WriteFile(t, p, c).Ok?
    ensures WriteFile(t, p, c).value == Put(t, p, Some(File(c)))
    ensures WellFormed(WriteFile(t, p, c).value) && WriteFile(t, p, c).value.Dir? == t.Dir?
    ensures ReadAll(WriteFile(t, p, c).value, p) == Ok(c)
    ensures SameOffChain(t, WriteFile(t, p, c).value, p)
  {
    var u := Put(t, p, Some(File(c)));
    PutWellFormed(t, p, Some(File(c)));
    PutAt(t, p, Some(File(c)));
    forall q | !IsPrefix(q, p) && (Lookup(t, q).Found? || Lookup(u, q).Found?)
      ensures Lookup(u, q) == Lookup(t, q)
    {
      if IsPrefix(p, q) {
        LookupPrefix(t, p[..|p| - 1], p);
        assert p[|p[..|p| - 1]|..] == [p[|p| - 1]];
        BelowNotFound(t, p, q);
        BelowNotFound(u, p, q);
      } else {
        PutOutside(t, p, Some(File(c)), q);
      }
    }
  }

  /**
   * A successful `CreateDirs` leaves a directory at every prefix of `p` and
   * changes nothing off the chain of `p`.
   */
  lemma {:induction false} CreateDirsOk(t: Node, p: Path)
    requires WellFormed(t) && CreateDirs(t, p).Ok?
    ensures WellFormed(CreateDirs(t, p).value)
    ensures forall j :: 0 <= j <= |p| ==> IsDirectory(CreateDirs(t, p).value, p[..j])
    ensures SameOffChain(t, CreateDirs(t, p).value, p)
    decreases |p|
  {
    var u := CreateDirs(t, p).value;
    if p == [] {
      assert u == t;
    } else {
      var pp := p[..|p| - 1];
      CreateDirsOk(t, pp);
      var t1 := CreateDirs(t, pp).value;
      assert pp[..|pp|] == pp;
      assert forall j :: 0 <= j < |p| ==> p[..j] == pp[..j];
      assert p[..|p|] == p;
      if Lookup(t1, p).Found? {
        assert u == t1;
      } else {
        assert u == Put(t1, p, Some(Dir([], true)));
        MakeDirOk(t1, p);
      }
      SameOffChainTrans(t, t1, u, pp, p, p);
    }
  }

  /** Creating one missing directory below an existing one. */
  lemma MakeDirOk(t: Node, p: Path)
    requires WellFormed(t) && p != [] && !Lookup(t, p).Found?
    requires forall j :: 0 <= j < |p| ==> IsDirectory(t, p[..j])
    ensures var u := Put(t, p, Some(Dir([], true)));
      && WellFormed(u)
      && (forall j :: 0 <= j <= |p| ==> IsDirectory(u, p[..j]))
      && SameOffChain(t, u, p)
  {
    var e := Some(Dir([], true));
    var u := Put(t, p, e);
    PutWellFormed(t, p, e);
    PutAt(t, p, e);
    forall j | 0 <= j <= |p| ensures IsDirectory(u, p[..j]) {
      if j < |p| {
        PutAncestor(t, p, e, p[..j]);
        LookupWellFormed(t, p[..j]);
        PutWellFormed(Lookup(t, p[..j]).node, p[j..], e);
      } else {
        assert p[..j] == p;
      }
    }
    forall q | !IsPrefix(q, p) && (Lookup(t, q).Found? || Lookup(u, q).Found?)
      ensures Lookup(u, q) == Lookup(t, q)
    {
      if IsPrefix(p, q) {
        BelowNotFound(t, p, q);
        BelowNotFound(u, p, q);
      } else {
        PutOutside(t, p, e, q);
      }
    }
  }
}
