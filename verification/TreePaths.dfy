/**
 The order the file tree lists paths in: component by component, directories before files.
 */
module TreePaths {
  import opened Bytes
  import opened Documents

  predicate StringLess(a: string, b: string) {
    if b == "" then false
    else if a == "" then true
    else if a[0] != b[0] then a[0] < b[0]
    else StringLess(a[1..], b[1..])
  }

  lemma {:induction false} StringsCompare(a: string, b: string)
    ensures a != b ==> (StringLess(a, b) <==> !StringLess(b, a))
    ensures a == b ==> !StringLess(a, b)
  {
    if a != "" && b != "" && a[0] == b[0] {
      StringsCompare(a[1..], b[1..]);
      assert a == [a[0]] + a[1..] && b == [b[0]] + b[1..];
    }
  }

  lemma {:induction false} StringsChain(a: string, b: string, c: string)
    requires StringLess(a, b) && StringLess(b, c)
    ensures StringLess(a, c)
  {
    if a != "" && b != "" && c != "" && a[0] == b[0] == c[0] {
      StringsChain(a[1..], b[1..], c[1..]);
    }
  }

  /** The order of tree keys: at each component a directory sorts before a file, then by name. */
  predicate Before(a: RepoPath, b: RepoPath) {
    if (|a| == 1) != (|b| == 1) then |a| > 1
    else if a[0] != b[0] then StringLess(a[0], b[0])
    else if |a| == 1 then false
    else Before(a[1..], b[1..])
  }

  lemma {:induction false} PathsCompare(a: RepoPath, b: RepoPath)
    ensures a != b ==> (Before(a, b) <==> !Before(b, a))
    ensures a == b ==> !Before(a, b)
  {
    StringsCompare(a[0], b[0]);
    if |a| > 1 && |b| > 1 && a[0] == b[0] {
      PathsCompare(a[1..], b[1..]);
      assert a == [a[0]] + a[1..] && b == [b[0]] + b[1..];
    }
  }

  lemma {:induction false} PathsChain(a: RepoPath, b: RepoPath, c: RepoPath)
    requires Before(a, b) && Before(b, c)
    ensures Before(a, c)
  {
    if |a| > 1 && |b| > 1 && |c| > 1 && a[0] == b[0] == c[0] {
      PathsChain(a[1..], b[1..], c[1..]);
    } else if a[0] != b[0] && b[0] != c[0] {
      if StringLess(a[0], b[0]) && StringLess(b[0], c[0]) {
        StringsChain(a[0], b[0], c[0]);
      }
      StringsCompare(a[0], c[0]);
    }
  }

  /** No later than: what a sorted list has of any two neighbours. */
  predicate NotAfter(a: RepoPath, b: RepoPath) { !Before(b, a) }

  /** A path lies under a directory: the directory's components come first and are not all. */
  predicate Under(path: seq<string>, directory: seq<string>) {
    |directory| < |path| && path[..|directory|] == directory
  }

  lemma UnderChain(a: seq<string>, b: seq<string>, c: seq<string>)
    requires Under(a, b) && Under(b, c)
    ensures Under(a, c)
  {
    assert a[..|c|] == a[..|b|][..|c|];
  }

  /** Everything under a directory comes together. */
  lemma {:induction false} DirectoryIsTogether(x: RepoPath, y: RepoPath, z: RepoPath, directory: seq<string>)
    requires NotAfter(x, y) && NotAfter(y, z) && Under(x, directory) && Under(z, directory)
    ensures Under(y, directory)
    decreases |directory|
  {
    if directory != [] {
      assert x[0] == directory[0] && z[0] == directory[0];
      StringsCompare(x[0], y[0]);
      StringsCompare(y[0], z[0]);
      assert |y| > 1 && y[0] == x[0];
      assert x[1..][..|directory| - 1] == directory[1..] && z[1..][..|directory| - 1] == directory[1..];
      DirectoryIsTogether(x[1..], y[1..], z[1..], directory[1..]);
      assert y[..|directory|] == [y[0]] + y[1..][..|directory| - 1];
    }
  }
}
