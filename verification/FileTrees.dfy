/**
 The file tree a renderer browses: the whole list, which directories are toggled, what is visible and
 what is selected.
 */
module FileTrees {
  import opened Bytes
  import opened Documents
  import opened TreePaths
  import opened TreeBuilding
  import opened TreeListing

  /** A finished pass over a listing. */
  ghost predicate IsForest(all: seq<Entry>, items: seq<Item>) {
    DepthsRight(all) && OneEntryEach(all) && Preorder(all) && Describes(all, items)
  }

  /** Directories start open in a diff and closed in a whole repository; toggling flips one. */
  predicate Expanded(path: RepoPath, toggled: set<RepoPath>, whole: bool) {
    (path in toggled) == whole
  }

  /** An entry is shown when every directory above it is expanded. */
  ghost predicate IsShown(all: seq<Entry>, k: nat, toggled: set<RepoPath>, whole: bool)
    requires k < |all|
  {
    forall i :: 0 <= i < |all| && all[i].directory && Under(all[k].path, all[i].path) ==>
        Expanded(all[i].path, toggled, whole)
  }

  function AsVisible(entry: Entry, toggled: set<RepoPath>, whole: bool): Entry {
    entry.(expanded := !entry.directory || Expanded(entry.path, toggled, whole))
  }

  /** The shown entries among the first `n`, in order. */
  ghost function ShownEntries(all: seq<Entry>, n: nat, toggled: set<RepoPath>, whole: bool): seq<Entry>
    requires n <= |all|
  {
    if n == 0 then []
    else ShownEntries(all, n - 1, toggled, whole)
         + if IsShown(all, n - 1, toggled, whole) then [AsVisible(all[n - 1], toggled, whole)] else []
  }

  lemma {:induction false} ShownIsVisible(all: seq<Entry>, n: nat, toggled: set<RepoPath>, whole: bool, k: nat)
    requires k < n <= |all| && IsShown(all, k, toggled, whole)
    ensures AsVisible(all[k], toggled, whole) in ShownEntries(all, n, toggled, whole)
  {
    if k < n - 1 {
      ShownIsVisible(all, n - 1, toggled, whole, k);
    }
  }

  lemma {:induction false} VisibleIsShown(all: seq<Entry>, n: nat, toggled: set<RepoPath>, whole: bool, entry: Entry)
    returns (k: nat)
    requires n <= |all| && entry in ShownEntries(all, n, toggled, whole)
    ensures k < n && IsShown(all, k, toggled, whole) && entry == AsVisible(all[k], toggled, whole)
  {
    k := n - 1;
    if entry in ShownEntries(all, n - 1, toggled, whole) {
      k := VisibleIsShown(all, n - 1, toggled, whole, entry);
    }
  }

  // ---- the filter --------------------------------------------------------

  /** A shown, closed directory that everything since lies below. */
  ghost predicate Hides(all: seq<Entry>, i: nat, k: nat, toggled: set<RepoPath>, whole: bool)
    requires k <= |all|
  {
    && i < k && all[i].directory && !Expanded(all[i].path, toggled, whole) && IsShown(all, i, toggled, whole)
    && forall j :: i < j < k ==> all[j].depth > all[i].depth
  }

  /** The filter's one variable is the depth of the closed directory still in force, if there is one. */
  ghost predicate Remembers(hiddenBelow: Option<nat>, all: seq<Entry>, k: nat, toggled: set<RepoPath>, whole: bool)
    requires k <= |all|
  {
    && (hiddenBelow.Some? ==> exists i: nat :: Hides(all, i, k, toggled, whole) && all[i].depth == hiddenBelow.value)
    && forall i: nat :: Hides(all, i, k, toggled, whole) ==> hiddenBelow == Some(all[i].depth)
  }

  /** Of the closed directories above an entry, one is shown itself. */
  lemma OutermostClosed(all: seq<Entry>, k: nat, i: nat, toggled: set<RepoPath>, whole: bool) returns (o: nat)
    requires Preorder(all) && k < |all| && i < |all| && all[i].directory && Under(all[k].path, all[i].path)
    requires !Expanded(all[i].path, toggled, whole)
    ensures o < |all| && all[o].directory && Under(all[k].path, all[o].path) && !Expanded(all[o].path, toggled, whole)
    ensures IsShown(all, o, toggled, whole)
    decreases i
  {
    o := i;
    if !IsShown(all, i, toggled, whole) {
      var j: nat :| 0 <= j < |all| && all[j].directory && Under(all[i].path, all[j].path)
          && !Expanded(all[j].path, toggled, whole);
      UnderChain(all[k].path, all[i].path, all[j].path);
      o := OutermostClosed(all, k, j, toggled, whole);
    }
  }

  lemma HiddenIsNotShown(all: seq<Entry>, k: nat, hiddenBelow: Option<nat>, toggled: set<RepoPath>, whole: bool)
    requires Preorder(all) && k < |all| && Remembers(hiddenBelow, all, k, toggled, whole)
    requires hiddenBelow.Some? && all[k].depth > hiddenBelow.value
    ensures !IsShown(all, k, toggled, whole) && Remembers(hiddenBelow, all, k + 1, toggled, whole)
  {
    var i: nat :| Hides(all, i, k, toggled, whole) && all[i].depth == hiddenBelow.value;
    assert StaysBelow(all, i, k);
    assert Hides(all, i, k + 1, toggled, whole);
    forall h: nat | Hides(all, h, k + 1, toggled, whole)
      ensures hiddenBelow == Some(all[h].depth)
    {
      assert h < k ==> Hides(all, h, k, toggled, whole);
    }
  }

  lemma OthersAreShown(all: seq<Entry>, k: nat, hiddenBelow: Option<nat>, toggled: set<RepoPath>, whole: bool)
    requires Preorder(all) && k < |all| && Remembers(hiddenBelow, all, k, toggled, whole)
    requires hiddenBelow.None? || all[k].depth <= hiddenBelow.value
    ensures IsShown(all, k, toggled, whole)
  {
    if !IsShown(all, k, toggled, whole) {
      var i: nat :| 0 <= i < |all| && all[i].directory && Under(all[k].path, all[i].path)
          && !Expanded(all[i].path, toggled, whole);
      var o := OutermostClosed(all, k, i, toggled, whole);
      ClosedAbove(all, o, k, toggled, whole);
    }
  }

  lemma ClosedAbove(all: seq<Entry>, o: nat, k: nat, toggled: set<RepoPath>, whole: bool)
    requires Preorder(all) && k < |all| && o < |all| && all[o].directory && Under(all[k].path, all[o].path)
    requires !Expanded(all[o].path, toggled, whole) && IsShown(all, o, toggled, whole)
    ensures Hides(all, o, k, toggled, whole) && all[o].depth < all[k].depth
  {
    assert o < k;
    assert StaysBelow(all, o, k);
  }

  lemma NextRemembered(all: seq<Entry>, k: nat, hiddenBelow: Option<nat>, toggled: set<RepoPath>, whole: bool)
    requires k < |all| && Remembers(hiddenBelow, all, k, toggled, whole) && IsShown(all, k, toggled, whole)
    requires hiddenBelow.None? || all[k].depth <= hiddenBelow.value
    ensures var next := if all[k].directory && !Expanded(all[k].path, toggled, whole) then Some(all[k].depth) else None;
            Remembers(next, all, k + 1, toggled, whole)
  {
    var next := if all[k].directory && !Expanded(all[k].path, toggled, whole) then Some(all[k].depth) else None;
    assert next.Some? ==> Hides(all, k, k + 1, toggled, whole);
    forall i: nat | Hides(all, i, k + 1, toggled, whole)
      ensures next == Some(all[i].depth)
    {
      assert i < k ==> Hides(all, i, k, toggled, whole);
    }
  }

  lemma ShownNext(all: seq<Entry>, k: nat, toggled: set<RepoPath>, whole: bool)
    requires k < |all|
    ensures ShownEntries(all, k + 1, toggled, whole)
         == ShownEntries(all, k, toggled, whole) + if IsShown(all, k, toggled, whole)
             then [AsVisible(all[k], toggled, whole)] else []
  {
    hide IsShown;
  }

  lemma NothingRemembered(all: seq<Entry>, toggled: set<RepoPath>, whole: bool)
    ensures Remembers(None, all, 0, toggled, whole) && ShownEntries(all, 0, toggled, whole) == []
  {
    hide IsShown;
  }

  /** One pass with one variable shows exactly the entries whose every directory is expanded. */
  method Visible(all: seq<Entry>, toggled: set<RepoPath>, whole: bool) returns (visible: seq<Entry>)
    requires Preorder(all)
    ensures visible == ShownEntries(all, |all|, toggled, whole)
  {
    hide Preorder, Remembers, ShownEntries;
    visible := [];
    var hiddenBelow: Option<nat> := None;
    NothingRemembered(all, toggled, whole);
    for k := 0 to |all|
      invariant visible == ShownEntries(all, k, toggled, whole)
      invariant Remembers(hiddenBelow, all, k, toggled, whole)
    {
      ShownNext(all, k, toggled, whole);
      hide Remembers, IsShown, Under, ShownEntries;
      if hiddenBelow.Some? && all[k].depth > hiddenBelow.value {
        HiddenIsNotShown(all, k, hiddenBelow, toggled, whole);
      } else {
        OthersAreShown(all, k, hiddenBelow, toggled, whole);
        NextRemembered(all, k, hiddenBelow, toggled, whole);
        hiddenBelow := if all[k].directory && !Expanded(all[k].path, toggled, whole) then Some(all[k].depth) else None;
        visible := visible + [AsVisible(all[k], toggled, whole)];
      }
    }
  }

  // ---- the tree ----------------------------------------------------------

  predicate HasPath(entries: seq<Entry>, path: RepoPath) {
    exists k :: 0 <= k < |entries| && entries[k].path == path
  }

  function ArrangedPaths(paths: seq<RepoPath>, order: seq<nat>): (r: seq<RepoPath>)
    requires forall i :: 0 <= i < |order| ==> order[i] < |paths|
    ensures |r| == |order| && forall i :: 0 <= i < |r| ==> r[i] == paths[order[i]]
  {
    seq(|order|, i requires 0 <= i < |order| => paths[order[i]])
  }

  lemma OrderedPaths(paths: seq<RepoPath>, order: seq<nat>)
    requires IsOrder(order, |paths|) && InOrder(paths, order)
    ensures SortedPaths(ArrangedPaths(paths, order))
    ensures forall path :: path in ArrangedPaths(paths, order) <==> path in paths
  {
    var sorted := ArrangedPaths(paths, order);
    forall i, j | 0 <= i < j < |sorted|
      ensures NotAfter(sorted[i], sorted[j])
    {
      assert Precedes(paths, order[i], order[j]);
      PathsCompare(sorted[i], sorted[j]);
    }
    forall path | path in paths
      ensures path in sorted
    {
      var i :| 0 <= i < |paths| && paths[i] == path;
      assert i in order;
      var k :| 0 <= k < |order| && order[k] == i;
      assert sorted[k] == path;
    }
  }

  lemma OrderIsBounded(order: seq<nat>, n: nat)
    requires IsOrder(order, n)
    ensures forall i :: 0 <= i < |order| ==> order[i] < n
  {
  }

  lemma NothingBuilt()
    ensures BuiltFrom([], [], [], [])
  {
    assert DirectoriesAreAncestors([], []);
  }

  lemma ListingSorted(listing: seq<Item>, repository: Option<seq<RepoPath>>, files: seq<FileDiff>, i: nat)
    requires IsListing(listing, repository, files) && i < |listing|
    ensures Sorted(listing[..i] + [listing[i]])
  {
    hide NotAfter, ItemsRight, ListsFile;
    assert forall k :: 0 <= k <= i ==> (listing[..i] + [listing[i]])[k] == listing[k];
  }

  lemma ForestBuilt(all: seq<Entry>, open: seq<string>, ancestors: seq<nat>, items: seq<Item>)
    requires BuiltFrom(all, open, ancestors, items)
    ensures IsForest(all, items)
  {
  }

  lemma PathIsShown(all: seq<Entry>, path: RepoPath, toggled: set<RepoPath>, whole: bool)
    requires HasPath(all, path)
    requires forall other: RepoPath :: Under(path, other) ==> Expanded(other, toggled, whole)
    ensures HasPath(ShownEntries(all, |all|, toggled, whole), path)
  {
    var k :| 0 <= k < |all| && all[k].path == path;
    ShownIsVisible(all, |all|, toggled, whole, k);
  }

  lemma RootIsVisible(all: seq<Entry>, items: seq<Item>, at: nat, toggled: set<RepoPath>, whole: bool)
    requires IsForest(all, items) && at < |all|
    ensures HasPath(ShownEntries(all, |all|, toggled, whole), all[at].path[..1])
  {
    hide SumsUp, Preorder, OneEntryEach, ShownEntries;
    var root := all[at].path[..1];
    if |all[at].path| == 1 {
      assert all[at].path == root;
    } else {
      EntryComesFromItem(all, items, at, root);
      assert HasDirectory(all, root);
    }
    assert HasPath(all, root);
    PathIsShown(all, root, toggled, whole);
  }

  /** The directories above a path of fewer than `end` components are open, and no other was touched. */
  ghost predicate UnfoldedTo(path: RepoPath, end: nat, was: set<RepoPath>, toggled: set<RepoPath>, whole: bool) {
    && (forall other: RepoPath :: !Under(path, other) || |other| >= end ==> (other in toggled <==> other in was))
    && (forall other: RepoPath :: Under(path, other) && |other| < end ==> Expanded(other, toggled, whole))
  }

  lemma UnfoldedFurther(path: RepoPath, end: nat, was: set<RepoPath>, before: set<RepoPath>, toggled: set<RepoPath>,
                        whole: bool)
    requires 0 < end < |path| && UnfoldedTo(path, end, was, before, whole)
    requires Expanded(path[..end], toggled, whole)
    requires forall other: RepoPath :: other != path[..end] ==> (other in toggled <==> other in before)
    ensures UnfoldedTo(path, end + 1, was, toggled, whole)
  {
  }

  lemma AllUnfolded(path: RepoPath, was: set<RepoPath>, toggled: set<RepoPath>, whole: bool)
    requires UnfoldedTo(path, |path|, was, toggled, whole)
    ensures forall other: RepoPath :: Under(path, other) ==> Expanded(other, toggled, whole)
    ensures forall other: RepoPath :: !Under(path, other) ==> (other in toggled <==> other in was)
  {
  }

  lemma VisibleIsListed(all: seq<Entry>, toggled: set<RepoPath>, whole: bool, path: RepoPath)
    requires HasPath(ShownEntries(all, |all|, toggled, whole), path)
    ensures HasPath(all, path)
  {
    var shown := ShownEntries(all, |all|, toggled, whole);
    var k :| 0 <= k < |shown| && shown[k].path == path;
    var at := VisibleIsShown(all, |all|, toggled, whole, shown[k]);
  }

  /** The first entry for a file. */
  function FileAt(all: seq<Entry>, file: nat): (r: Option<nat>)
    ensures r.Some? ==> r.value < |all| && all[r.value].file == Some(file) && forall j :: 0 <= j < r.value ==>
            all[j].file != Some(file)
    ensures r.None? ==> forall j :: 0 <= j < |all| ==> all[j].file != Some(file)
  {
    if all == [] then None
    else
      var before := FileAt(all[..|all| - 1], file);
      if before.Some? then before
      else if all[|all| - 1].file == Some(file) then Some(|all| - 1)
      else None
  }

  ghost predicate IsDeepestVisible(visible: seq<Entry>, path: RepoPath, chosen: RepoPath) {
    && |chosen| <= |path| && chosen == path[..|chosen|] && HasPath(visible, chosen)
    && forall n :: |chosen| < n <= |path| ==> !HasPath(visible, path[..n])
  }

  method DeepestVisible(visible: seq<Entry>, path: RepoPath) returns (n: nat)
    requires HasPath(visible, path[..1])
    ensures 1 <= n <= |path| && HasPath(visible, path[..n]) && IsDeepestVisible(visible, path, path[..n])
  {
    n := |path|;
    while !(exists k :: 0 <= k < |visible| && visible[k].path == path[..n])
      invariant 1 <= n <= |path|
      invariant forall m :: n < m <= |path| ==> !HasPath(visible, path[..m])
      decreases n
    {
      assert !HasPath(visible, path[..n]);
      n := n - 1;
    }
    assert HasPath(visible, path[..n]);
  }

  class FileTree {
    var repository: Option<seq<RepoPath>>
    var all: seq<Entry>
    var toggled: set<RepoPath>
    var visible: seq<Entry>
    var selected: Option<RepoPath>
    /** What the list was built from. */
    ghost var items: seq<Item>

    ghost predicate Valid()
      reads this
    {
      && (repository.Some? ==> SortedPaths(repository.value))
      && IsForest(all, items) && visible == ShownEntries(all, |all|, toggled, repository.Some?)
      && (selected.Some? ==> HasPath(all, selected.value))
    }

    constructor (files: seq<FileDiff>)
      ensures Valid() && IsListing(items, None, files) && toggled == {} && selected == None
    {
      repository, all, toggled, visible, selected, items := None, [], {}, [], None, [];
      new;
      Rebuild(files);
    }

    method SetRepository(paths: seq<RepoPath>, files: seq<FileDiff>)
      requires Valid()
      modifies this
      ensures Valid() && repository.Some? && IsListing(items, repository, files)
      ensures forall path :: path in repository.value <==> path in paths
    {
      hide IsForest, IsListing, IsOrder;
      var order := StableOrder(paths);
      OrderedPaths(paths, order);
      OrderIsBounded(order, |paths|);
      repository := Some(ArrangedPaths(paths, order));
      Rebuild(files);
    }

    /** Lists the document again, forgetting toggles and a selection that no longer apply. */
    method Rebuild(files: seq<FileDiff>)
      requires repository.Some? ==> SortedPaths(repository.value)
      modifies this
      ensures Valid() && repository == old(repository) && IsListing(items, repository, files)
      ensures toggled == set path | path in old(toggled) && HasDirectory(all, path)
      ensures selected == if old(selected).Some? && HasPath(all, old(selected).value) then old(selected) else None
    {
      hide BuiltFrom, IsListing, ShownEntries;
      var listing := Listed(repository, files);
      all := [];
      items := [];
      var open: seq<string>, ancestors: seq<nat> := [], [];
      NothingBuilt();
      for i := 0 to |listing|
        invariant BuiltFrom(all, open, ancestors, listing[..i])
        invariant unchanged(`repository) && unchanged(`toggled) && unchanged(`selected)
      {
        ListingSorted(listing, repository, files, i);
        assert listing[..i + 1] == listing[..i] + [listing[i]];
        all, ancestors := AddItem(all, open, ancestors, listing[i], listing[..i]);
        open := Directories(listing[i].path);
      }
      assert listing[..|listing|] == listing;
      items := listing;
      ForestBuilt(all, open, ancestors, items);
      toggled := set path | path in toggled && exists k :: 0 <= k < |all| && all[k].directory && all[k].path == path;
      if selected.Some? && !(exists k :: 0 <= k < |all| && all[k].path == selected.value) {
        selected := None;
      }
      Refresh();
    }

    method Refresh()
      requires IsForest(all, items)
      modifies this`visible
      ensures visible == ShownEntries(all, |all|, toggled, repository.Some?)
    {
      visible := Visible(all, toggled, repository.Some?);
    }

    /** Opens or closes a directory; says whether that was news. */
    method ToggleState(path: RepoPath, expanded: bool) returns (changed: bool)
      modifies this`toggled
      ensures Expanded(path, toggled, repository.Some?) == expanded
      ensures forall other: RepoPath :: other != path ==> (other in toggled <==> other in old(toggled))
      ensures changed <==> toggled != old(toggled)
      ensures changed <==> Expanded(path, old(toggled), repository.Some?) != expanded
    {
      if expanded == Expanded(path, toggled, repository.Some?) {
        return false;
      }
      toggled := if path in toggled then toggled - {path} else toggled + {path};
      return true;
    }

    method SetExpanded(path: RepoPath, expanded: bool)
      requires Valid()
      modifies this`toggled, this`visible
      ensures Valid() && Expanded(path, toggled, repository.Some?) == expanded
      ensures forall other: RepoPath :: other != path ==> (other in toggled <==> other in old(toggled))
    {
      var changed := ToggleState(path, expanded);
      if changed {
        Refresh();
      }
    }

    method Select(position: nat)
      requires Valid()
      modifies this`selected
      ensures Valid() && selected == if position < |visible| then Some(visible[position].path) else old(selected)
    {
      if position < |visible| {
        var k := VisibleIsShown(all, |all|, toggled, repository.Some?, visible[position]);
        selected := Some(visible[position].path);
      }
    }

    /** Opens every directory above a listed path and selects it; it is then visible. */
    method RevealPath(path: RepoPath)
      requires Valid()
      modifies this`toggled, this`visible, this`selected
      ensures Valid()
      ensures !HasPath(all, path) ==> unchanged(this)
      ensures HasPath(all, path) ==> selected == Some(path) && HasPath(visible, path)
      ensures forall other: RepoPath :: !Under(path, other) ==> (other in toggled <==> other in old(toggled))
    {
      hide IsForest, ShownEntries, SortedPaths;
      if !(exists k :: 0 <= k < |all| && all[k].path == path) {
        return;
      }
      var changed := false;
      for end := 1 to |path|
        invariant UnfoldedTo(path, end, old(toggled), toggled, repository.Some?)
        invariant !changed ==> toggled == old(toggled)
        invariant visible == old(visible) && selected == old(selected)
      {
        hide UnfoldedTo;
        ghost var before := toggled;
        var more := ToggleState(path[..end], true);
        UnfoldedFurther(path, end, old(toggled), before, toggled, repository.Some?);
        changed := changed || more;
      }
      if changed {
        Refresh();
      }
      selected := Some(path);
      AllUnfolded(path, old(toggled), toggled, repository.Some?);
      PathIsShown(all, path, toggled, repository.Some?);
    }

    /** Selects the deepest visible path among a file and the directories above it. */
    method FollowFile(file: nat)
      requires Valid()
      modifies this`selected
      ensures Valid()
      ensures match FileAt(all, file)
              case None => selected == old(selected)
              case Some(at) => selected.Some? && IsDeepestVisible(visible, all[at].path, selected.value)
    {
      hide IsForest, ShownEntries, SortedPaths, IsDeepestVisible, HasPath;
      var at := FileAt(all, file);
      if at.None? {
        return;
      }
      RootIsVisible(all, items, at.value, toggled, repository.Some?);
      var n := DeepestVisible(visible, all[at.value].path);
      VisibleIsListed(all, toggled, repository.Some?, all[at.value].path[..n]);
      selected := Some(all[at.value].path[..n]);
    }
  }
}
