/** The changed files a review is about, as the presentation and the file tree see them. */
module Documents {
  import opened Bytes
  import opened SourceDocuments
  import opened Hunks

  /** A repository-relative path: its components, at least one. */
  type RepoPath = p: seq<string> | |p| > 0 witness [""]

  datatype FileStatus = Modified | Created | Deleted | Renamed | Copied | Untracked

  datatype StageState = Unstaged | Staged | PartiallyStaged

  datatype LineStat = LineStat(added: nat, deleted: nat, files: nat)
  {
    function Plus(other: LineStat): LineStat {
      LineStat(added + other.added, deleted + other.deleted, files + other.files)
    }
  }

  const NO_STAT := LineStat(0, 0, 0)

  datatype FileDiff = FileDiff(path: RepoPath, status: FileStatus, staged: StageState, hunks: seq<Hunk>,
                               oldSource: SourceResult, newSource: SourceResult)
  {
    function Source(side: Side): SourceResult {
      if side == Old then oldSource else newSource
    }

    ghost predicate Valid() {
      && (oldSource.Captured? ==> oldSource.document.Valid())
      && (newSource.Captured? ==> newSource.document.Valid())
    }
  }

  /** The first file with a path: what a path in a request refers to. */
  function FileIndex(files: seq<FileDiff>, path: RepoPath): (r: Option<nat>)
    ensures r.Some? ==> r.value < |files| && files[r.value].path == path
                        && forall i :: 0 <= i < r.value ==> files[i].path != path
    ensures r.None? ==> forall i :: 0 <= i < |files| ==> files[i].path != path
  {
    if files == [] then None
    else if files[0].path == path then Some(0)
    else
      var rest := FileIndex(files[1..], path);
      assert forall i :: 1 <= i < |files| ==> files[i] == files[1..][i - 1];
      if rest.Some? then Some(rest.value + 1) else None
  }

  /** An arrangement of the first `n` naturals: each of them once. */
  ghost predicate IsOrder(order: seq<nat>, n: nat) {
    && (forall i :: 0 <= i < |order| ==> order[i] < n)
    && (forall i, j :: 0 <= i < j < |order| ==> order[i] != order[j])
    && (forall f: nat :: f < n ==> f in order)
  }
}
