/**
 What the file tree lists: the changed files in tree order, or a repository's paths with the changed
 files among them.
 */
module TreeListing {
  import opened Bytes
  import opened Hunks
  import opened Documents
  import opened TreePaths
  import opened TreeBuilding

  // ---- sorting -----------------------------------------------------------

  /** Index `a` comes before `b`: by path, and by position between equal paths. */
  predicate Precedes(paths: seq<RepoPath>, a: nat, b: nat)
    requires a < |paths| && b < |paths|
  {
    Before(paths[a], paths[b]) || (paths[a] == paths[b] && a < b)
  }

  ghost predicate InOrder(paths: seq<RepoPath>, order: seq<nat>) {
    && (forall i :: 0 <= i < |order| ==> order[i] < |paths|)
    && forall i, j :: 0 <= i < j < |order| ==> Precedes(paths, order[i], order[j])
  }

  lemma PrecedesChain(paths: seq<RepoPath>, a: nat, b: nat, c: nat)
    requires a < |paths| && b < |paths| && c < |paths| && Precedes(paths, a, b) && Precedes(paths, b, c)
    ensures Precedes(paths, a, c)
  {
    if Before(paths[a], paths[b]) && Before(paths[b], paths[c]) {
      PathsChain(paths[a], paths[b], paths[c]);
    }
  }

  /** The stable sort by tree key. */
  method StableOrder(paths: seq<RepoPath>) returns (order: seq<nat>)
    ensures IsOrder(order, |paths|) && InOrder(paths, order)
  {
    order := [];
    for k := 0 to |paths|
      invariant IsOrder(order, k) && InOrder(paths, order)
    {
      var pos := |order|;
      while pos > 0 && Before(paths[k], paths[order[pos - 1]])
        invariant 0 <= pos <= |order|
        invariant forall j :: pos <= j < |order| ==> Precedes(paths, k, order[j])
      {
        pos := pos - 1;
        EarlierThanRest(paths, order, pos, k);
      }
      Inserted(paths, order, pos, k);
      order := order[..pos] + [k] + order[pos..];
    }
  }

  lemma EarlierThanRest(paths: seq<RepoPath>, order: seq<nat>, pos: nat, k: nat)
    requires InOrder(paths, order) && pos < |order| && k < |paths| && Before(paths[k], paths[order[pos]])
    ensures forall j :: pos <= j < |order| ==> Precedes(paths, k, order[j])
  {
    forall j | pos <= j < |order|
      ensures Precedes(paths, k, order[j])
    {
      if j > pos {
        PrecedesChain(paths, k, order[pos], order[j]);
      }
    }
  }

  lemma Inserted(paths: seq<RepoPath>, order: seq<nat>, pos: nat, k: nat)
    requires IsOrder(order, k) && InOrder(paths, order) && pos <= |order| && k < |paths|
    requires forall j :: pos <= j < |order| ==> Precedes(paths, k, order[j])
    requires pos > 0 ==> !Before(paths[k], paths[order[pos - 1]])
    ensures IsOrder(order[..pos] + [k] + order[pos..], k + 1)
    ensures InOrder(paths, order[..pos] + [k] + order[pos..])
  {
    hide Precedes, Before, IsOrder, InOrder;
    AfterRest(paths, order, pos, k);
    StillOrder(order, pos, k);
    StillInOrder(paths, order, pos, k);
  }

  lemma StillOrder(order: seq<nat>, pos: nat, k: nat)
    requires IsOrder(order, k) && pos <= |order|
    ensures IsOrder(order[..pos] + [k] + order[pos..], k + 1)
  {
    var after := order[..pos] + [k] + order[pos..];
    assert forall f: nat :: f in after <==> f == k || f in order by {
      assert order == order[..pos] + order[pos..];
    }
    assert forall i :: 0 <= i < |after| ==>
           after[i] == if i < pos then order[i] else if i == pos then k else order[i - 1];
  }

  lemma StillInOrder(paths: seq<RepoPath>, order: seq<nat>, pos: nat, k: nat)
    requires InOrder(paths, order) && pos <= |order| && k < |paths|
    requires forall j :: 0 <= j < pos ==> Precedes(paths, order[j], k)
    requires forall j :: pos <= j < |order| ==> Precedes(paths, k, order[j])
    ensures InOrder(paths, order[..pos] + [k] + order[pos..])
  {
    hide Precedes;
    var after := order[..pos] + [k] + order[pos..];
    assert forall i :: 0 <= i < |after| ==>
           after[i] == if i < pos then order[i] else if i == pos then k else order[i - 1];
  }

  lemma AfterRest(paths: seq<RepoPath>, order: seq<nat>, pos: nat, k: nat)
    requires IsOrder(order, k) && InOrder(paths, order) && pos <= |order| && k < |paths|
    requires pos > 0 ==> !Before(paths[k], paths[order[pos - 1]])
    ensures forall j :: 0 <= j < pos ==> Precedes(paths, order[j], k)
  {
    if pos > 0 {
      PathsCompare(paths[k], paths[order[pos - 1]]);
      forall j | 0 <= j < pos
        ensures Precedes(paths, order[j], k)
      {
        if j < pos - 1 {
          PrecedesChain(paths, order[j], order[pos - 1], k);
        }
      }
    }
  }

  // ---- the listing -------------------------------------------------------

  function CountKind(lines: seq<PatchLine>, kind: LineKind): nat {
    if lines == [] then 0
    else CountKind(lines[..|lines| - 1], kind) + if lines[|lines| - 1].kind == kind then 1 else 0
  }

  function CountInHunks(hunks: seq<Hunk>, kind: LineKind): nat {
    if hunks == [] then 0 else CountInHunks(hunks[..|hunks| - 1], kind) + CountKind(hunks[|hunks| - 1].lines, kind)
  }

  function FileStat(file: FileDiff): LineStat {
    LineStat(CountInHunks(file.hunks, Added), CountInHunks(file.hunks, Removed), 1)
  }

  function FileItem(files: seq<FileDiff>, f: nat): Item
    requires f < |files|
  {
    Item(files[f].path, Some(f), files[f].staged, FileStat(files[f]))
  }

  function PlainItem(path: RepoPath): Item {
    Item(path, None, Unstaged, NO_STAT)
  }

  function PathsOf(files: seq<FileDiff>): (r: seq<RepoPath>)
    ensures |r| == |files| && forall i :: 0 <= i < |r| ==> r[i] == files[i].path
  {
    seq(|files|, i requires 0 <= i < |files| => files[i].path)
  }

  /** The order the presentation and the tree show the changed files in. */
  method TreeOrder(files: seq<FileDiff>) returns (order: seq<nat>)
    ensures IsOrder(order, |files|) && InOrder(PathsOf(files), order)
  {
    order := StableOrder(PathsOf(files));
  }

  /** The file a repository path shows: the last one there that was not deleted. */
  ghost predicate ShownAt(files: seq<FileDiff>, path: RepoPath, f: nat) {
    && f < |files| && files[f].path == path && files[f].status != Deleted
    && forall g :: f < g < |files| ==> files[g].path != path || files[g].status == Deleted
  }

  /** Each item is a plain path, or the file shown at its path; no file is listed twice. */
  ghost predicate ItemsRight(items: seq<Item>, files: seq<FileDiff>) {
    && (forall i :: 0 <= i < |items| ==> ItemRight(items[i], files))
    && (forall i, j :: 0 <= i < j < |items| && items[i].file.Some? ==> items[i].file != items[j].file)
  }

  ghost predicate ItemRight(item: Item, files: seq<FileDiff>) {
    if item.file.None? then item == PlainItem(item.path)
    else ShownAt(files, item.path, item.file.value) && item == FileItem(files, item.file.value)
  }

  ghost predicate ListsPath(items: seq<Item>, path: RepoPath) {
    exists i :: 0 <= i < |items| && items[i].path == path
  }

  ghost predicate ListsFile(items: seq<Item>, f: nat) {
    exists i :: 0 <= i < |items| && items[i].file == Some(f)
  }

  ghost predicate Leads(changed: map<RepoPath, nat>, path: RepoPath, f: nat) {
    path in changed && changed[path] == f
  }

  /** The last file listed at each path, deleted files apart. */
  method ChangedPaths(files: seq<FileDiff>) returns (changed: map<RepoPath, nat>)
    ensures forall path, f: nat :: Leads(changed, path, f) <==> ShownAt(files, path, f)
  {
    changed := map[];
    for f := 0 to |files|
      invariant forall path, g: nat :: Leads(changed, path, g) <==> ShownAt(files[..f], path, g)
    {
      ghost var earlier := changed;
      if files[f].status != Deleted {
        changed := changed[files[f].path := f];
      }
      forall path, g: nat
        ensures Leads(changed, path, g) <==> ShownAt(files[..f + 1], path, g)
      {
        ShownStep(files, f, path, g);
        assert Leads(earlier, path, g) <==> ShownAt(files[..f], path, g);
      }
    }
    assert files[..|files|] == files;
  }

  lemma ShownStep(files: seq<FileDiff>, f: nat, path: RepoPath, g: nat)
    requires f < |files|
    ensures ShownAt(files[..f + 1], path, g)
            <==> if files[f].path == path && files[f].status != Deleted then g == f else ShownAt(files[..f], path, g)
  {
    var more, fewer := files[..f + 1], files[..f];
    assert forall i :: 0 <= i < f ==> more[i] == fewer[i];
    assert more[f] == files[f];
  }

  /** What has been listed while `rest` of the changed paths are still to be placed. */
  ghost predicate Placing(items: seq<Item>, files: seq<FileDiff>, changed: map<RepoPath, nat>,
                          rest: map<RepoPath, nat>)
  {
    && ItemsRight(items, files)
    && (forall path :: path in rest ==> path in changed && rest[path] == changed[path])
    && (forall path :: path in changed ==> (path in rest <==> !ListsFile(items, changed[path])))
  }

  lemma Placed(items: seq<Item>, files: seq<FileDiff>, changed: map<RepoPath, nat>, rest: map<RepoPath, nat>,
               path: RepoPath)
    requires Placing(items, files, changed, rest) && path in rest
    requires forall p, f: nat :: Leads(changed, p, f) <==> ShownAt(files, p, f)
    ensures rest[path] < |files| && Placing(items + [FileItem(files, rest[path])], files, changed, rest - {path})
  {
    var f := rest[path];
    assert Leads(changed, path, f) && ShownAt(files, path, f);
    var item := FileItem(files, f);
    var after := items + [item];
    assert after[|items|] == item;
    forall p | p in changed
      ensures p in rest - {path} <==> !ListsFile(after, changed[p])
    {
      if ListsFile(items, changed[p]) {
        var i :| 0 <= i < |items| && items[i].file == Some(changed[p]);
        assert after[i].file == Some(changed[p]);
      }
      if changed[p] == f {
        assert Leads(changed, p, f);
        assert ShownAt(files, p, f);
      }
    }
    assert forall i :: 0 <= i < |items| ==> items[i].file != Some(f);
    forall i, j | 0 <= i < j < |after| && after[i].file.Some?
      ensures after[i].file != after[j].file
    {
    }
  }

  lemma PlainPlaced(items: seq<Item>, files: seq<FileDiff>, changed: map<RepoPath, nat>, rest: map<RepoPath, nat>,
                    path: RepoPath)
    requires Placing(items, files, changed, rest)
    ensures Placing(items + [PlainItem(path)], files, changed, rest)
  {
    hide ItemRight;
    var after := items + [PlainItem(path)];
    assert ItemRight(PlainItem(path), files) by {
      PlainIsRight(path, files);
    }
    forall p | p in changed
      ensures ListsFile(items, changed[p]) <==> ListsFile(after, changed[p])
    {
      if ListsFile(items, changed[p]) {
        var i :| 0 <= i < |items| && items[i].file == Some(changed[p]);
        assert after[i].file == Some(changed[p]);
      }
    }
  }

  lemma PlainIsRight(path: RepoPath, files: seq<FileDiff>)
    ensures ItemRight(PlainItem(path), files)
  {
  }

  /** A repository's paths, each with the changed file there, then the changed files elsewhere. */
  method ListRepository(paths: seq<RepoPath>, files: seq<FileDiff>) returns (items: seq<Item>, leftovers: bool)
    ensures ItemsRight(items, files)
    ensures forall path, f: nat :: ShownAt(files, path, f) ==> ListsFile(items, f)
    ensures |items| >= |paths| && forall i :: 0 <= i < |paths| ==> items[i].path == paths[i]
    ensures forall i :: |paths| <= i < |items| ==> items[i].file.Some?
    ensures leftovers <==> |items| > |paths|
  {
    hide ItemsRight, ListsFile;
    var changed := ChangedPaths(files);
    var rest := changed;
    items := [];
    StartPlacing(files, changed);
    for i := 0 to |paths|
      invariant |items| == i && forall j :: 0 <= j < i ==> items[j].path == paths[j]
      invariant Placing(items, files, changed, rest)
    {
      hide Placing;
      if paths[i] in rest {
        Placed(items, files, changed, rest, paths[i]);
        ghost var f := rest[paths[i]];
        RestIsShown(items, files, changed, rest, paths[i]);
        items := items + [FileItem(files, rest[paths[i]])];
        rest := rest - {paths[i]};
      } else {
        PlainPlaced(items, files, changed, rest, paths[i]);
        items := items + [PlainItem(paths[i])];
      }
    }
    leftovers := rest != map[];
    while rest != map[]
      invariant |items| >= |paths| && forall j :: 0 <= j < |paths| ==> items[j].path == paths[j]
      invariant forall j :: |paths| <= j < |items| ==> items[j].file.Some?
      invariant Placing(items, files, changed, rest)
      invariant leftovers <==> rest != map[] || |items| > |paths|
      decreases |rest|
    {
      hide Placing;
      var path :| path in rest;
      Placed(items, files, changed, rest, path);
      items := items + [FileItem(files, rest[path])];
      rest := rest - {path};
    }
    forall path, f: nat | ShownAt(files, path, f)
      ensures ListsFile(items, f)
    {
      assert Leads(changed, path, f);
    }
  }

  lemma StartPlacing(files: seq<FileDiff>, changed: map<RepoPath, nat>)
    ensures Placing([], files, changed, changed)
  {
  }

  lemma RestIsShown(items: seq<Item>, files: seq<FileDiff>, changed: map<RepoPath, nat>, rest: map<RepoPath, nat>,
                    path: RepoPath)
    requires Placing(items, files, changed, rest) && path in rest
    requires forall p, f: nat :: Leads(changed, p, f) <==> ShownAt(files, p, f)
    ensures rest[path] < |files| && files[rest[path]].path == path
  {
    assert Leads(changed, path, rest[path]);
    assert ShownAt(files, path, rest[path]);
  }

  /** What the tree is built from. */
  ghost predicate IsListing(items: seq<Item>, repository: Option<seq<RepoPath>>, files: seq<FileDiff>) {
    && Sorted(items)
    && match repository
       case None =>
         && (forall i :: 0 <= i < |items| ==>
             items[i].file.Some? && items[i].file.value < |files| && items[i] == FileItem(files, items[i].file.value))
         && (forall f: nat :: f < |files| ==> ListsFile(items, f))
         && (forall i, j :: 0 <= i < j < |items| ==> items[i].file != items[j].file)
       case Some(paths) =>
         && ItemsRight(items, files)
         && (forall path, f: nat :: ShownAt(files, path, f) ==> ListsFile(items, f))
         && (forall path :: path in paths ==> ListsPath(items, path))
         && (forall i :: 0 <= i < |items| && items[i].file.None? ==> items[i].path in paths)
  }

  ghost predicate SortedPaths(paths: seq<RepoPath>) {
    forall i, j :: 0 <= i < j < |paths| ==> NotAfter(paths[i], paths[j])
  }

  function ItemPaths(items: seq<Item>): (r: seq<RepoPath>)
    ensures |r| == |items| && forall i :: 0 <= i < |r| ==> r[i] == items[i].path
  {
    seq(|items|, i requires 0 <= i < |items| => items[i].path)
  }

  function Arranged(items: seq<Item>, order: seq<nat>): (r: seq<Item>)
    requires forall i :: 0 <= i < |order| ==> order[i] < |items|
    ensures |r| == |order| && forall i :: 0 <= i < |r| ==> r[i] == items[order[i]]
  {
    seq(|order|, i requires 0 <= i < |order| => items[order[i]])
  }

  lemma ArrangedSorted(items: seq<Item>, order: seq<nat>)
    requires InOrder(ItemPaths(items), order)
    ensures Sorted(Arranged(items, order))
  {
    var after := Arranged(items, order);
    forall i, j | 0 <= i < j < |after|
      ensures NotAfter(after[i].path, after[j].path)
    {
      assert Precedes(ItemPaths(items), order[i], order[j]);
      PathsCompare(after[i].path, after[j].path);
    }
  }

  lemma ArrangedKeeps(items: seq<Item>, order: seq<nat>, files: seq<FileDiff>)
    requires IsOrder(order, |items|)
    ensures ItemsRight(items, files) ==> ItemsRight(Arranged(items, order), files)
    ensures forall f: nat :: ListsFile(items, f) ==> ListsFile(Arranged(items, order), f)
    ensures forall path :: ListsPath(items, path) ==> ListsPath(Arranged(items, order), path)
  {
    hide ItemRight;
    var after := Arranged(items, order);
    forall i | 0 <= i < |items|
      ensures items[i] in after
    {
      assert i in order;
      var k :| 0 <= k < |order| && order[k] == i;
      assert after[k] == items[i];
    }
    if ItemsRight(items, files) {
      forall i, j | 0 <= i < j < |after| && after[i].file.Some?
        ensures after[i].file != after[j].file
      {
        if order[i] < order[j] {
          assert items[order[i]].file != items[order[j]].file;
        } else {
          assert items[order[j]].file.Some? ==> items[order[j]].file != items[order[i]].file;
        }
      }
    }
  }

  function FileItems(files: seq<FileDiff>, order: seq<nat>): (r: seq<Item>)
    requires forall i :: 0 <= i < |order| ==> order[i] < |files|
    ensures |r| == |order| && forall i :: 0 <= i < |r| ==> r[i] == FileItem(files, order[i])
  {
    seq(|order|, i requires 0 <= i < |order| => FileItem(files, order[i]))
  }

  lemma OrderIsListing(files: seq<FileDiff>, order: seq<nat>)
    requires IsOrder(order, |files|) && InOrder(PathsOf(files), order)
    ensures IsListing(FileItems(files, order), None, files)
  {
    var items := FileItems(files, order);
    forall i, j | 0 <= i < j < |items|
      ensures NotAfter(items[i].path, items[j].path)
    {
      assert Precedes(PathsOf(files), order[i], order[j]);
      PathsCompare(items[i].path, items[j].path);
    }
    forall f: nat | f < |files|
      ensures ListsFile(items, f)
    {
      assert f in order;
      var i :| 0 <= i < |order| && order[i] == f;
      assert items[i].file == Some(f);
    }
  }

  /** The listing the tree is rebuilt from. */
  method Listed(repository: Option<seq<RepoPath>>, files: seq<FileDiff>) returns (items: seq<Item>)
    requires repository.Some? ==> SortedPaths(repository.value)
    ensures IsListing(items, repository, files)
  {
    if repository.None? {
      var order := TreeOrder(files);
      items := FileItems(files, order);
      OrderIsListing(files, order);
      return;
    }
    var leftovers;
    items, leftovers := ListRepository(repository.value, files);
    if leftovers {
      var order := StableOrder(ItemPaths(items));
      ArrangedSorted(items, order);
      ArrangedKeeps(items, order, files);
      items := Arranged(items, order);
    }
  }
}
