/**
 * Paths as the note store sees them: the `..` guard on user-supplied relative
 * paths, the splitting of a path string into its name segments, and the join
 * `Paths.get(rootDir, userId, path)` that produces the physical location.
 *
 * A physical path is the sequence of its names from the root of the file
 * system, so `/data/notes/u1/a/b` is `["data", "notes", "u1", "a", "b"]` and the
 * root `/` is `[]`.
 */
module Paths {
  import opened Wrappers

  type Name = string
  type Path = seq<Name>

  /** `s.contains("..")`: the guard every note operation applies to its relative path. */
  function ContainsDotDot(s: string): (b: bool)
    ensures b <==> exists i :: 0 <= i < |s| - 1 && s[i] == '.' && s[i + 1] == '.'
  {
    if |s| < 2 then false
    else if s[0] == '.' && s[1] == '.' then true
    else
      var b := ContainsDotDot(s[1..]);
      assert b ==> exists i :: 0 < i < |s| - 1 && s[i] == '.' && s[i + 1] == '.' by {
        if b {
          var j :| 0 <= j < |s[1..]| - 1 && s[1..][j] == '.' && s[1..][j + 1] == '.';
          assert s[j + 1] == '.' && s[j + 2] == '.';
        }
      }
      assert (exists i :: 0 < i < |s| - 1 && s[i] == '.' && s[i + 1] == '.') ==> b by {
        if exists i :: 0 < i < |s| - 1 && s[i] == '.' && s[i + 1] == '.' {
          var i :| 0 < i < |s| - 1 && s[i] == '.' && s[i + 1] == '.';
          assert s[1..][i - 1] == '.' && s[1..][i] == '.';
        }
      }
      b
  }

  /** The length of the name at the front of `s`: the index of the first `/`, or `|s|`. */
  function SegmentEnd(s: string): (k: nat)
    ensures k <= |s|
  {
    if s == [] || s[0] == '/' then 0 else 1 + SegmentEnd(s[1..])
  }

  /** The front name holds no separator, and a separator follows it unless the string ends. */
  lemma {:induction false} SegmentEndSpec(s: string)
    ensures forall j :: 0 <= j < SegmentEnd(s) ==> s[j] != '/'
    ensures SegmentEnd(s) < |s| ==> s[SegmentEnd(s)] == '/'
    decreases |s|
  {
    if s != [] && s[0] != '/' {
      SegmentEndSpec(s[1..]);
      assert forall j :: 1 <= j < SegmentEnd(s) ==> s[j] == s[1..][j - 1];
    }
  }

  /**
   * The names of a path string, as `java.nio` parses it: separators are `/`,
   * repeated, leading and trailing separators produce no empty names.
   */
  function Segments(s: string): Path
    decreases |s|
  {
    if s == [] then []
    else if s[0] == '/' then Segments(s[1..])
    else
      var k := SegmentEnd(s);
      [s[..k]] + Segments(s[k..])
  }

  /** Every name of a path string is non-empty and holds no separator. */
  lemma {:induction false} SegmentsAreNames(s: string)
    ensures forall i :: 0 <= i < |Segments(s)| ==> Segments(s)[i] != [] && '/' !in Segments(s)[i]
    decreases |s|
  {
    if s == [] {
    } else if s[0] == '/' {
      SegmentsAreNames(s[1..]);
    } else {
      var k := SegmentEnd(s);
      SegmentEndSpec(s);
      SegmentsAreNames(s[k..]);
      var r := Segments(s);
      assert r == [s[..k]] + Segments(s[k..]);
      assert forall i :: 1 <= i < |r| ==> r[i] == Segments(s[k..])[i - 1];
      assert s[..k] != [] by {
        assert s[0] != '/';
      }
      assert '/' !in s[..k] by {
        forall j | 0 <= j < k ensures s[..k][j] != '/' {
        }
      }
    }
  }

  lemma {:induction false} SegmentEndBeforeSlash(a: string, rest: string)
    requires rest != [] && rest[0] == '/'
    ensures SegmentEnd(a + rest) == SegmentEnd(a)
    decreases |a|
  {
    if a != [] && a[0] != '/' {
      assert (a + rest)[1..] == a[1..] + rest;
      SegmentEndBeforeSlash(a[1..], rest);
    }
  }

  lemma SegmentsUnfold(s: string)
    requires s != [] && s[0] != '/'
    ensures Segments(s) == [s[..SegmentEnd(s)]] + Segments(s[SegmentEnd(s)..])
  {
  }

  lemma ConcatSlices(a: string, rest: string, k: nat)
    requires k <= |a|
    ensures (a + rest)[..k] == a[..k] && (a + rest)[k..] == a[k..] + rest
  {
  }

  /** The first name of `a` is also the first name of `a` followed by a separator and more. */
  lemma SegmentsFront(a: string, rest: string)
    requires a != [] && a[0] != '/' && rest != [] && rest[0] == '/'
    ensures Segments(a + rest) == [a[..SegmentEnd(a)]] + Segments(a[SegmentEnd(a)..] + rest)
  {
    SegmentEndBeforeSlash(a, rest);
    assert (a + rest)[0] == a[0];
    SegmentsUnfold(a + rest);
    ConcatSlices(a, rest, SegmentEnd(a));
  }

  /** Joining two path strings with a separator concatenates their names. */
  lemma {:induction false} SegmentsOfJoin(a: string, b: string)
    ensures Segments(a + "/" + b) == Segments(a) + Segments(b)
    decreases |a|
  {
    var s := a + "/" + b;
    if a == [] {
      assert s[0] == '/' && s[1..] == b;
      assert Segments(s) == Segments(b);
    } else if a[0] == '/' {
      assert s[0] == '/' && s[1..] == a[1..] + "/" + b;
      assert Segments(s) == Segments(s[1..]);
      assert Segments(a) == Segments(a[1..]);
      SegmentsOfJoin(a[1..], b);
    } else {
      var k := SegmentEnd(a);
      assert s == a + ("/" + b);
      SegmentsFront(a, "/" + b);
      assert a[k..] + ("/" + b) == a[k..] + "/" + b;
      SegmentsOfJoin(a[k..], b);
      assert Segments(a) == [a[..k]] + Segments(a[k..]);
    }
  }

  /**
   * `Paths.get(rootDir, userId, path)`: the three strings joined with
   * separators and parsed. The user's notes live under the names of `rootDir`
   * followed by those of `userId`; the relative path supplies the rest.
   */
  function Resolve(rootDir: string, userId: string, path: string): (r: Path)
    ensures r == Segments(rootDir) + Segments(userId) + Segments(path)
  {
    SegmentsOfJoin(rootDir, userId);
    SegmentsOfJoin(rootDir + "/" + userId, path);
    Segments(rootDir + "/" + userId + "/" + path)
  }

  /** `Path.getParent()`: the root has none (`null`). */
  function Parent(p: Path): (r: Option<Path>)
    ensures r.None? <==> p == []
    ensures r.Some? ==> |r.value| + 1 == |p| && IsPrefix(r.value, p)
  {
    if p == [] then None else Some(p[..|p| - 1])
  }

  /** `a` is `b` or one of its ancestors. */
  predicate IsPrefix(a: Path, b: Path) {
    |a| <= |b| && b[..|a|] == a
  }

  /**
   * Splitting a string at a separator cannot create a `..` pair, so the guard
   * rejects a path exactly when one of its names contains `..`.
   */
  lemma {:induction false} GuardBySegments(s: string)
    ensures ContainsDotDot(s) <==> exists i :: 0 <= i < |Segments(s)| && ContainsDotDot(Segments(s)[i])
    decreases |s|
  {
    if s == [] {
    } else if s[0] == '/' {
      GuardTail(s);
      GuardBySegments(s[1..]);
      assert Segments(s) == Segments(s[1..]);
    } else {
      var k := SegmentEnd(s);
      SegmentEndSpec(s);
      GuardSplit(s, k);
      GuardBySegments(s[k..]);
      var r := Segments(s);
      assert r == [s[..k]] + Segments(s[k..]);
      assert r[0] == s[..k];
      if ContainsDotDot(s[k..]) {
        var i :| 0 <= i < |Segments(s[k..])| && ContainsDotDot(Segments(s[k..])[i]);
        assert r[i + 1] == Segments(s[k..])[i];
      }
      if exists i :: 0 <= i < |r| && ContainsDotDot(r[i]) {
        var i :| 0 <= i < |r| && ContainsDotDot(r[i]);
        if i > 0 {
          assert r[i] == Segments(s[k..])[i - 1];
          assert ContainsDotDot(s[k..]);
        }
      }
    }
  }

  lemma GuardTail(s: string)
    requires s != [] && s[0] == '/'
    ensures ContainsDotDot(s) <==> ContainsDotDot(s[1..])
  {
    if ContainsDotDot(s) {
      var i :| 0 <= i < |s| - 1 && s[i] == '.' && s[i + 1] == '.';
      assert s[1..][i - 1] == '.';
    }
  }

  lemma GuardSplit(s: string, k: nat)
    requires k <= |s| && (k < |s| ==> s[k] == '/')
    ensures ContainsDotDot(s) <==> ContainsDotDot(s[..k]) || ContainsDotDot(s[k..])
  {
    if ContainsDotDot(s) {
      var i :| 0 <= i < |s| - 1 && s[i] == '.' && s[i + 1] == '.';
      if i + 1 < k {
        assert s[..k][i] == '.' && s[..k][i + 1] == '.';
      } else {
        assert s[k..][i - k] == '.' && s[k..][i - k + 1] == '.';
      }
    }
    if ContainsDotDot(s[..k]) {
      var i :| 0 <= i < k - 1 && s[..k][i] == '.' && s[..k][i + 1] == '.';
      assert s[i] == '.' && s[i + 1] == '.';
    }
    if ContainsDotDot(s[k..]) {
      var i :| 0 <= i < |s| - k - 1 && s[k..][i] == '.' && s[k..][i + 1] == '.';
      assert s[k + i] == '.' && s[k + i + 1] == '.';
    }
  }

  /** A path that passes the guard has no `..` name, so it cannot climb out of the user's directory. */
  lemma GuardedPathHasNoParentName(s: string)
    requires !ContainsDotDot(s)
    ensures forall i :: 0 <= i < |Segments(s)| ==> Segments(s)[i] != ".."
  {
    GuardBySegments(s);
    assert ContainsDotDot("..");
  }

  /** The guard is coarser than a name check: `a..b` is one ordinary name, yet it is rejected. */
  lemma GuardOverRejects()
    ensures ContainsDotDot("a..b") && Segments("a..b") == ["a..b"] && "a..b" != ".."
  {
    assert "a..b"[1] == '.' && "a..b"[2] == '.';
    assert SegmentEnd("a..b") == 4;
    assert "a..b"[..4] == "a..b";
  }
}
