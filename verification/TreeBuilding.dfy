/**
 The file tree as a list: one pass over the sorted paths pushes each directory before what lies under
 it, keeping the open directories on a stack and adding each changed file to all of them.
 */
module TreeBuilding {
  import opened Bytes
  import opened Documents
  import opened TreePaths

  /** A listed path, with what is known of the changed file there. */
  datatype Item = Item(path: RepoPath, file: Option<nat>, stage: StageState, stat: LineStat)

  datatype Entry = Entry(path: RepoPath, depth: nat, directory: bool, file: Option<nat>, changed: bool, expanded: bool,
                         stage: StageState, stat: LineStat)

  function FileEntry(item: Item): Entry {
    Entry(item.path, |item.path| - 1, false, item.file, item.file.Some?, true, item.stage, item.stat)
  }

  function Directories(path: RepoPath): seq<string> { path[..|path| - 1] }

  function MergeStage(left: StageState, right: StageState): StageState {
    if left == right then left else PartiallyStaged
  }

  // ---- the shape of the list ---------------------------------------------

  /** Every entry after `i` up to `k` is deeper than `i`. */
  ghost predicate StaysBelow(all: seq<Entry>, i: nat, k: nat)
    requires i < |all| && k < |all|
  {
    forall j :: i < j <= k ==> all[j].depth > all[i].depth
  }

  ghost predicate Shallow(all: seq<Entry>, i: nat) {
    i < |all| && exists j :: i < j < |all| && all[j].depth <= all[i].depth
  }

  ghost predicate OneEntryEach(all: seq<Entry>) {
    forall i, k :: 0 <= i < k < |all| && all[i].directory && all[k].directory ==> all[i].path != all[k].path
  }

  /** A directory comes before everything under it, and what is under it follows it at once. */
  ghost predicate Preorder(all: seq<Entry>) {
    && (forall i, k :: 0 <= i < |all| && 0 <= k < |all| && all[i].directory && Under(all[k].path, all[i].path) ==>
        i < k)
    && (forall i: nat, k: nat :: i < k < |all| && all[i].directory ==>
                         (Under(all[k].path, all[i].path) <==> StaysBelow(all, i, k)))
  }

  ghost predicate DepthsRight(all: seq<Entry>) {
    forall i :: 0 <= i < |all| ==> all[i].depth == |all[i].path| - 1
  }

  ghost predicate IsOpen(all: seq<Entry>, open: seq<string>, ancestors: seq<nat>, d: nat)
    requires d < |open| == |ancestors|
  {
    ancestors[d] < |all| && all[ancestors[d]].directory && all[ancestors[d]].path == open[..d + 1]
  }

  /** The open directories are entries, and every entry after one of them lies deeper. */
  ghost predicate OpenChain(all: seq<Entry>, open: seq<string>, ancestors: seq<nat>) {
    && |ancestors| == |open|
    && (forall d :: 0 <= d < |open| ==> IsOpen(all, open, ancestors, d))
    && (forall d, j :: 0 <= d < |open| && ancestors[d] < j < |all| ==> all[j].depth > d)
  }

  /** Every other directory is closed, or will be by the next entry. */
  ghost predicate OthersClosed(all: seq<Entry>, ancestors: seq<nat>) {
    forall i :: 0 <= i < |all| && all[i].directory && i !in ancestors ==> all[i].depth >= |ancestors| || Shallow(all, i)
  }

  ghost predicate IsTree(all: seq<Entry>, open: seq<string>, ancestors: seq<nat>) {
    && DepthsRight(all) && OneEntryEach(all) && Preorder(all)
    && OpenChain(all, open, ancestors) && OthersClosed(all, ancestors)
  }

  /** Closing directories keeps the shape. */
  lemma Truncated(all: seq<Entry>, open: seq<string>, ancestors: seq<nat>, shared: nat)
    requires IsTree(all, open, ancestors) && shared <= |open|
    ensures IsTree(all, open[..shared], ancestors[..shared])
  {
    hide OneEntryEach, Preorder;
    var kept, chain := open[..shared], ancestors[..shared];
    forall d | 0 <= d < shared
      ensures IsOpen(all, kept, chain, d)
    {
      assert IsOpen(all, open, ancestors, d);
      assert kept[..d + 1] == open[..d + 1];
    }
    forall i | 0 <= i < |all| && all[i].directory && i !in chain
      ensures all[i].depth >= shared || Shallow(all, i)
    {
      if i in ancestors {
        var d := PlaceBeyond(ancestors, shared, i);
        assert IsOpen(all, open, ancestors, d);
      }
    }
  }

  lemma PlaceBeyond(s: seq<nat>, n: nat, x: nat) returns (d: nat)
    requires n <= |s| && x in s && x !in s[..n]
    ensures n <= d < |s| && s[d] == x
  {
    var rest := s[n..];
    assert s == s[..n] + rest;
    var e :| 0 <= e < |rest| && rest[e] == x;
    d := n + e;
  }

  ghost predicate NewDirectory(all: seq<Entry>, path: seq<string>) {
    forall i :: 0 <= i < |all| ==> !Under(all[i].path, path) && (all[i].directory ==> all[i].path != path)
  }

  lemma ShallowStays(all: seq<Entry>, entry: Entry, i: nat)
    requires i < |all|
    ensures Shallow(all, i) ==> Shallow(all + [entry], i)
    ensures entry.depth <= all[i].depth ==> Shallow(all + [entry], i)
  {
    var after := all + [entry];
    if Shallow(all, i) {
      var j :| i < j < |all| && all[j].depth <= all[i].depth;
      assert after[j].depth <= after[i].depth;
    }
    if entry.depth <= all[i].depth {
      assert after[|all|].depth <= after[i].depth;
    }
  }

  lemma StaysBelowStays(all: seq<Entry>, entry: Entry, i: nat, k: nat)
    requires i < |all| && k < |all|
    ensures StaysBelow(all, i, k) <==> StaysBelow(all + [entry], i, k)
  {
    var after := all + [entry];
    assert forall j :: 0 <= j < |all| ==> after[j] == all[j];
  }

  /** The new entry lies under a directory exactly when that directory is open. */
  lemma NewEntryUnder(all: seq<Entry>, open: seq<string>, ancestors: seq<nat>, entry: Entry, i: nat)
    requires IsTree(all, open, ancestors) && i < |all| && all[i].directory
    requires entry.path[..|entry.path| - 1] == open && entry.depth == |open|
    ensures Under(entry.path, all[i].path) <==> i in ancestors
    ensures StaysBelow(all + [entry], i, |all|) <==> i in ancestors
  {
    hide Preorder;
    var after := all + [entry];
    if i in ancestors {
      var d :| 0 <= d < |ancestors| && ancestors[d] == i;
      assert IsOpen(all, open, ancestors, d);
      assert entry.path[..d + 1] == open[..d + 1];
      assert |all[i].path| == d + 1;
    } else {
      assert all[i].depth >= |ancestors| || Shallow(all, i);
      ShallowStays(all, entry, i);
      NotBelow(after, i);
    }
    if Under(entry.path, all[i].path) {
      UnderIsOpen(all, open, ancestors, entry.path, i);
    }
  }

  lemma UnderIsOpen(all: seq<Entry>, open: seq<string>, ancestors: seq<nat>, path: RepoPath, i: nat)
    requires OneEntryEach(all) && OpenChain(all, open, ancestors) && i < |all| && all[i].directory
    requires path[..|path| - 1] == open && Under(path, all[i].path)
    ensures i in ancestors
  {
    var d := |all[i].path| - 1;
    assert open[..d + 1] == path[..d + 1];
    assert IsOpen(all, open, ancestors, d);
    assert ancestors[d] in ancestors;
  }

  lemma NotBelow(all: seq<Entry>, i: nat)
    requires i < |all| && Shallow(all, i)
    ensures !StaysBelow(all, i, |all| - 1)
  {
  }

  lemma PreorderPush(all: seq<Entry>, open: seq<string>, ancestors: seq<nat>, entry: Entry)
    requires IsTree(all, open, ancestors)
    requires entry.path[..|entry.path| - 1] == open && entry.depth == |open|
    requires entry.directory ==> NewDirectory(all, entry.path)
    ensures Preorder(all + [entry])
  {
    hide OpenChain, OthersClosed, OneEntryEach, DepthsRight, StaysBelow, Under;
    var after := all + [entry];
    NotUnderItself(entry.path);
    forall i: nat, k: nat | i < k < |after| && after[i].directory
      ensures Under(after[k].path, after[i].path) <==> StaysBelow(after, i, k)
    {
      if k < |all| {
        StaysBelowStays(all, entry, i, k);
      } else {
        NewEntryUnder(all, open, ancestors, entry, i);
      }
    }
  }

  lemma NotUnderItself(path: seq<string>)
    ensures !Under(path, path)
  {
  }

  lemma ChainPush(all: seq<Entry>, open: seq<string>, ancestors: seq<nat>, entry: Entry)
    requires IsTree(all, open, ancestors)
    requires entry.path[..|entry.path| - 1] == open && entry.depth == |open|
    ensures OpenChain(all + [entry], open, ancestors)
            && OthersClosed(all + [entry], if entry.directory then ancestors + [|all|] else ancestors)
    ensures entry.directory ==> OpenChain(all + [entry], open + [entry.path[|open|]], ancestors + [|all|])
  {
    hide Preorder, OneEntryEach, DepthsRight, Shallow;
    var after := all + [entry];
    var chain := if entry.directory then ancestors + [|all|] else ancestors;
    assert entry.directory ==> chain[|ancestors|] == |all|;
    forall i | 0 <= i < |after| && after[i].directory && i !in chain
      ensures after[i].depth >= |chain| || Shallow(after, i)
    {
      assert i in ancestors ==> i in chain;
      ShallowStays(all, entry, i);
    }
    forall d | 0 <= d < |open|
      ensures IsOpen(after, open, ancestors, d)
    {
      assert IsOpen(all, open, ancestors, d);
    }
    if entry.directory {
      var wider := open + [entry.path[|open|]];
      assert wider == entry.path;
      forall d | 0 <= d < |wider|
        ensures IsOpen(after, wider, chain, d)
      {
        if d < |open| {
          assert IsOpen(all, open, ancestors, d);
          assert wider[..d + 1] == open[..d + 1];
        } else {
          assert wider[..d + 1] == wider;
        }
      }
    }
  }

  /** Pushing the next entry keeps the shape; a directory opens. */
  lemma Pushed(all: seq<Entry>, open: seq<string>, ancestors: seq<nat>, entry: Entry)
    requires IsTree(all, open, ancestors)
    requires entry.path[..|entry.path| - 1] == open && entry.depth == |open|
    requires entry.directory ==> NewDirectory(all, entry.path)
    ensures entry.directory ==> IsTree(all + [entry], open + [entry.path[|open|]], ancestors + [|all|])
    ensures !entry.directory ==> IsTree(all + [entry], open, ancestors)
  {
    hide Preorder, OpenChain, OthersClosed;
    PreorderPush(all, open, ancestors, entry);
    ChainPush(all, open, ancestors, entry);
  }

  // ---- what the entries say ----------------------------------------------

  /** The changed files listed under a directory. */
  ghost function ChangedUnder(items: seq<Item>, directory: seq<string>): seq<Item> {
    if items == [] then []
    else
      var last := items[|items| - 1];
      ChangedUnder(items[..|items| - 1], directory) + if last.file.Some? && Under(last.path, directory) then [last]
          else []
  }

  ghost function SumOf(items: seq<Item>): LineStat {
    if items == [] then NO_STAT else SumOf(items[..|items| - 1]).Plus(items[|items| - 1].stat)
  }

  /** The stage files share, or partially staged when they differ. */
  ghost function CommonStage(items: seq<Item>): StageState
    requires items != []
  {
    if forall k :: 0 <= k < |items| ==> items[k].stage == items[0].stage then items[0].stage else PartiallyStaged
  }

  lemma MergingIsCommon(items: seq<Item>, item: Item)
    requires items != []
    ensures CommonStage(items + [item]) == MergeStage(CommonStage(items), item.stage)
  {
    var all := items + [item];
    assert forall k :: 0 <= k < |items| ==> all[k] == items[k];
    assert all[|items|] == item;
  }

  /** A directory's line counts and stage are those of the changed files under it. */
  ghost predicate SumsUp(entry: Entry, items: seq<Item>) {
    var under := ChangedUnder(items, entry.path);
    && entry.stat == SumOf(under) && (entry.changed <==> under != [])
    && (under != [] ==> entry.stage == CommonStage(under))
  }

  /** The file entries are the listed paths, in order. */
  ghost function FileEntries(all: seq<Entry>): seq<Entry> {
    if all == [] then []
    else FileEntries(all[..|all| - 1]) + if all[|all| - 1].directory then [] else [all[|all| - 1]]
  }

  ghost function EntriesOf(items: seq<Item>): seq<Entry> {
    if items == [] then [] else EntriesOf(items[..|items| - 1]) + [FileEntry(items[|items| - 1])]
  }

  ghost predicate HasDirectory(all: seq<Entry>, path: seq<string>) {
    exists i :: 0 <= i < |all| && all[i].directory && all[i].path == path
  }

  ghost predicate IsAncestor(items: seq<Item>, path: seq<string>) {
    exists m :: 0 <= m < |items| && Under(items[m].path, path)
  }

  ghost predicate DirectoriesAreAncestors(all: seq<Entry>, items: seq<Item>) {
    forall path: seq<string> :: path != [] ==> (HasDirectory(all, path) <==> IsAncestor(items, path))
  }

  /** The directories are exactly the ancestors of the listed paths, and they add up. */
  ghost predicate Describes(all: seq<Entry>, items: seq<Item>) {
    && FileEntries(all) == EntriesOf(items) && DirectoriesAreAncestors(all, items)
    && (forall i :: 0 <= i < |all| && all[i].directory ==> SumsUp(all[i], items))
  }

  /** The listing is in tree order. */
  ghost predicate Sorted(items: seq<Item>) {
    forall i, j :: 0 <= i < j < |items| ==> NotAfter(items[i].path, items[j].path)
  }

  // ---- adding one listed path --------------------------------------------

  function Bumped(entry: Entry, stage: StageState, stat: LineStat): Entry {
    entry.(stage := if entry.changed then MergeStage(entry.stage, stage)
           else stage, changed := true, stat := entry.stat.Plus(stat))
  }

  method BumpAncestors(all: seq<Entry>, ancestors: seq<nat>, stage: StageState, stat: LineStat)
    returns (after: seq<Entry>)
    requires forall d :: 0 <= d < |ancestors| ==> ancestors[d] < |all|
    requires forall c, d :: 0 <= c < d < |ancestors| ==> ancestors[c] != ancestors[d]
    ensures |after| == |all|
    ensures forall i :: 0 <= i < |all| ==> after[i] == if i in ancestors then Bumped(all[i], stage, stat) else all[i]
  {
    after := all;
    for d := 0 to |ancestors|
      invariant |after| == |all|
      invariant forall i :: 0 <= i < |all| ==>
                after[i] == if i in ancestors[..d] then Bumped(all[i], stage, stat) else all[i]
    {
      assert ancestors[..d + 1] == ancestors[..d] + [ancestors[d]];
      assert ancestors[d] !in ancestors[..d];
      after := after[ancestors[d] := Bumped(after[ancestors[d]], stage, stat)];
    }
    assert ancestors[..|ancestors|] == ancestors;
  }

  method SharedLength(a: seq<string>, b: seq<string>) returns (n: nat)
    ensures n <= |a| && n <= |b| && a[..n] == b[..n]
    ensures n < |a| && n < |b| ==> a[n] != b[n]
  {
    n := 0;
    while n < |a| && n < |b| && a[n] == b[n]
      invariant n <= |a| && n <= |b| && a[..n] == b[..n]
    {
      n := n + 1;
    }
  }

  lemma AncestorsDistinct(all: seq<Entry>, open: seq<string>, ancestors: seq<nat>)
    requires IsTree(all, open, ancestors)
    ensures forall d :: 0 <= d < |ancestors| ==> ancestors[d] < |all| && all[ancestors[d]].directory
    ensures forall c, d :: 0 <= c < d < |ancestors| ==> ancestors[c] != ancestors[d]
  {
    forall d | 0 <= d < |ancestors|
      ensures ancestors[d] < |all| && all[ancestors[d]].directory && |all[ancestors[d]].path| == d + 1
    {
      assert IsOpen(all, open, ancestors, d);
    }
  }

  /** The shape of the list does not depend on what its entries count. */
  ghost predicate SameShape(a: seq<Entry>, b: seq<Entry>) {
    |a| == |b| && forall i :: 0 <= i < |a| ==>
        a[i].path == b[i].path && a[i].depth == b[i].depth && a[i].directory == b[i].directory
  }

  lemma ShapeKept(a: seq<Entry>, b: seq<Entry>, open: seq<string>, ancestors: seq<nat>)
    requires IsTree(a, open, ancestors) && SameShape(a, b)
    ensures IsTree(b, open, ancestors)
  {
    forall i, k | 0 <= i < |a| && 0 <= k < |a|
      ensures StaysBelow(a, i, k) <==> StaysBelow(b, i, k)
    {
    }
    forall i | 0 <= i < |a|
      ensures Shallow(a, i) <==> Shallow(b, i)
    {
      if Shallow(a, i) {
        ShallowSame(a, b, i);
      }
      if Shallow(b, i) {
        ShallowSame(b, a, i);
      }
    }
    forall d | 0 <= d < |open|
      ensures IsOpen(b, open, ancestors, d)
    {
      assert IsOpen(a, open, ancestors, d);
    }
  }

  lemma ShallowSame(a: seq<Entry>, b: seq<Entry>, i: nat)
    requires SameShape(a, b) && Shallow(a, i)
    ensures Shallow(b, i)
  {
    var j :| i < j < |a| && a[j].depth <= a[i].depth;
    assert b[j].depth <= b[i].depth;
  }

  lemma {:induction false} FileEntryIsItem(all: seq<Entry>, items: seq<Item>, k: nat)
    requires FileEntries(all) == EntriesOf(items) && k < |all| && !all[k].directory
    ensures exists m :: 0 <= m < |items| && items[m].path == all[k].path
  {
    FileEntryListed(all, k);
    EntryOfItem(items, all[k]);
  }

  lemma {:induction false} FileEntryListed(all: seq<Entry>, k: nat)
    requires k < |all| && !all[k].directory
    ensures all[k] in FileEntries(all)
  {
    if k < |all| - 1 {
      FileEntryListed(all[..|all| - 1], k);
    }
  }

  lemma {:induction false} EntryOfItem(items: seq<Item>, entry: Entry)
    requires entry in EntriesOf(items)
    ensures exists m :: 0 <= m < |items| && items[m].path == entry.path
  {
    var n := |items| - 1;
    if entry != FileEntry(items[n]) {
      EntryOfItem(items[..n], entry);
      var m :| 0 <= m < n && items[..n][m].path == entry.path;
      assert items[m].path == entry.path;
    }
  }

  /** The directories grown before the last listed path. */
  ghost function LastDirectories(items: seq<Item>): seq<string> {
    if items == [] then [] else Directories(items[|items| - 1].path)
  }

  /** A directory of the next path that the last path does not share is an ancestor of no earlier path:
      what lies under a directory comes together. */
  lemma NotYetListed(items: seq<Item>, item: Item, shared: nat, d: nat)
    requires Sorted(items + [item]) && shared <= d < |item.path| - 1
    requires shared < |LastDirectories(items)| ==> LastDirectories(items)[shared] != item.path[shared]
    ensures !IsAncestor(items, item.path[..d + 1])
  {
    var all, directory := items + [item], item.path[..d + 1];
    forall m | 0 <= m < |items|
      ensures !Under(items[m].path, directory)
    {
      if Under(items[m].path, directory) {
        var last := |items| - 1;
        assert all[m] == items[m] && all[last] == items[last] && all[|items|] == item;
        PathsCompare(items[m].path, items[m].path);
        assert m == last || NotAfter(all[m].path, all[last].path);
        assert NotAfter(all[last].path, all[|items|].path);
        DirectoryIsTogether(items[m].path, items[last].path, item.path, directory);
        SameComponent(items[last].path, directory, shared);
      }
    }
  }

  lemma SameComponent(path: RepoPath, directory: seq<string>, k: nat)
    requires Under(path, directory) && k < |directory|
    ensures k < |Directories(path)| && Directories(path)[k] == directory[k]
  {
    assert path[..|directory|][k] == path[k];
  }

  lemma FreshDirectory(all: seq<Entry>, items: seq<Item>, directory: RepoPath)
    requires Describes(all, items) && !IsAncestor(items, directory)
    ensures NewDirectory(all, directory)
  {
    hide SumsUp;
    forall i | 0 <= i < |all|
      ensures !Under(all[i].path, directory)
    {
      if Under(all[i].path, directory) {
        EntryComesFromItem(all, items, i, directory);
      }
    }
    forall i | 0 <= i < |all| && all[i].directory
      ensures all[i].path != directory
    {
      assert HasDirectory(all, all[i].path);
    }
  }

  lemma EntryComesFromItem(all: seq<Entry>, items: seq<Item>, i: nat, directory: seq<string>)
    requires Describes(all, items) && i < |all| && Under(all[i].path, directory)
    ensures IsAncestor(items, directory)
  {
    hide SumsUp;
    if all[i].directory {
      assert HasDirectory(all, all[i].path);
      var m :| 0 <= m < |items| && Under(items[m].path, all[i].path);
      UnderChain(items[m].path, all[i].path, directory);
    } else {
      FileEntryIsItem(all, items, i);
      var m :| 0 <= m < |items| && items[m].path == all[i].path;
      assert Under(items[m].path, directory);
    }
  }

  /** Where the pass stands: the shape, the open directories of the last path, and what the entries say. */
  ghost predicate BuiltFrom(all: seq<Entry>, open: seq<string>, ancestors: seq<nat>, items: seq<Item>) {
    IsTree(all, open, ancestors) && Describes(all, items) && open == LastDirectories(items)
  }

  function NewDirectoryEntry(path: RepoPath, stage: StageState): Entry {
    Entry(path, |path| - 1, true, None, false, true, stage, NO_STAT)
  }

  /** The directory at depth `d`. */
  function UpTo(directories: seq<string>, d: nat): (r: seq<string>)
    requires d < |directories|
    ensures r == directories[..d + 1]
  {
    directories[..d + 1]
  }

  /** Opens the directories of the next path that are not open yet. */
  method OpenDirectories(all: seq<Entry>, ancestors: seq<nat>, directories: seq<string>, shared: nat,
                         stage: StageState, ghost items: seq<Item>)
    returns (after: seq<Entry>, chain: seq<nat>)
    requires shared <= |directories| && |ancestors| == shared
    requires IsTree(all, directories[..shared], ancestors) && Describes(all, items)
    requires forall d :: shared <= d < |directories| ==> !IsAncestor(items, UpTo(directories, d))
    ensures all <= after && IsTree(after, directories, chain)
    ensures FileEntries(after) == FileEntries(all)
    ensures forall i :: |all| <= i < |after| ==> IsNewAncestor(after[i], directories, items)
  {
    hide IsTree, Describes, FileEntries, IsAncestor, IsNewAncestor, NewDirectory;
    after, chain := all, ancestors;
    for depth := shared to |directories|
      invariant all <= after && IsTree(after, directories[..depth], chain) && |chain| == depth
                && FileEntries(after) == FileEntries(all)
      invariant forall i :: |all| <= i < |after| ==>
                IsNewAncestor(after[i], directories, items) && after[i].directory && |after[i].path| <= depth
    {
      var path := UpTo(directories, depth);
      var entry := NewDirectoryEntry(path, stage);
      assert path[..depth] == directories[..depth];
      assert directories[..depth] + [path[depth]] == path;
      StillNew(all, after, items, directories, depth);
      Pushed(after, directories[..depth], chain, entry);
      DirectoryListsNothing(after, entry);
      NewAncestor(directories, depth, stage, items);
      chain := chain + [|after|];
      after := after + [entry];
    }
    assert directories[..|directories|] == directories;
  }

  /** A directory just grown: above the next path, above no earlier one, and counting nothing yet. */
  ghost predicate IsNewAncestor(entry: Entry, directories: seq<string>, items: seq<Item>) {
    && entry.directory && 0 < |entry.path| <= |directories| && entry.path == directories[..|entry.path|]
    && !IsAncestor(items, entry.path) && entry.stat == NO_STAT && !entry.changed
  }

  lemma NewAncestor(directories: seq<string>, depth: nat, stage: StageState, items: seq<Item>)
    requires depth < |directories| && !IsAncestor(items, directories[..depth + 1])
    ensures IsNewAncestor(NewDirectoryEntry(directories[..depth + 1], stage), directories, items)
  {
  }

  lemma DirectoryListsNothing(all: seq<Entry>, entry: Entry)
    ensures FileEntries(all + [entry]) == FileEntries(all) + if entry.directory then [] else [entry]
  {
    assert (all + [entry])[..|all|] == all;
  }

  lemma StillNew(all: seq<Entry>, after: seq<Entry>, items: seq<Item>, directories: seq<string>, depth: nat)
    requires all <= after && Describes(all, items) && depth < |directories|
             && !IsAncestor(items, directories[..depth + 1])
    requires forall i :: |all| <= i < |after| ==> |after[i].path| <= depth
    ensures NewDirectory(after, directories[..depth + 1])
  {
    hide Describes, IsAncestor;
    FreshDirectory(all, items, directories[..depth + 1]);
    forall i | 0 <= i < |after|
      ensures !Under(after[i].path, directories[..depth + 1])
              && (after[i].directory ==> after[i].path != directories[..depth + 1])
    {
      if i < |all| {
        assert after[i] == all[i];
      }
    }
  }

  lemma ChangedUnderPush(items: seq<Item>, item: Item, directory: seq<string>)
    ensures ChangedUnder(items + [item], directory)
         == ChangedUnder(items, directory) + if item.file.Some? && Under(item.path, directory) then [item] else []
  {
    assert (items + [item])[..|items|] == items;
  }

  lemma {:induction false} NothingUnder(items: seq<Item>, directory: seq<string>)
    requires !IsAncestor(items, directory)
    ensures ChangedUnder(items, directory) == []
  {
    if items != [] {
      var init := items[..|items| - 1];
      forall m | 0 <= m < |init|
        ensures !Under(init[m].path, directory)
      {
        assert init[m] == items[m];
      }
      assert !Under(items[|items| - 1].path, directory);
      NothingUnder(init, directory);
    }
  }

  lemma SumPush(items: seq<Item>, item: Item)
    ensures SumOf(items + [item]) == SumOf(items).Plus(item.stat)
  {
    assert (items + [item])[..|items|] == items;
  }

  /** Counting a changed file into a directory above it keeps the directory's sums right. */
  lemma BumpedSumsUp(entry: Entry, items: seq<Item>, item: Item)
    requires SumsUp(entry, items) && item.file.Some? && Under(item.path, entry.path)
    ensures SumsUp(Bumped(entry, item.stage, item.stat), items + [item])
  {
    hide ChangedUnder, SumOf, CommonStage;
    var under := ChangedUnder(items, entry.path);
    ChangedUnderPush(items, item, entry.path);
    SumPush(under, item);
    if under != [] {
      MergingIsCommon(under, item);
    } else {
      OnlyOne(item);
      assert under + [item] == [item];
    }
  }

  lemma OnlyOne(item: Item)
    ensures CommonStage([item]) == item.stage
  {
  }

  lemma OtherSumsUp(entry: Entry, items: seq<Item>, item: Item)
    requires SumsUp(entry, items) && !(item.file.Some? && Under(item.path, entry.path))
    ensures SumsUp(entry, items + [item])
  {
    ChangedUnderPush(items, item, entry.path);
    assert ChangedUnder(items, entry.path) + [] == ChangedUnder(items, entry.path);
  }

  /** Every directory adds up again once a path has been counted into the open ones. */
  lemma CountedIn(all: seq<Entry>, after: seq<Entry>, items: seq<Item>, item: Item, ancestors: seq<nat>)
    requires IsTree(all, Directories(item.path), ancestors) && |after| == |all|
    requires forall i :: 0 <= i < |all| && all[i].directory ==> SumsUp(all[i], items)
    requires forall i :: 0 <= i < |all| ==>
                           after[i] == if item.file.Some? && i in ancestors then Bumped(all[i], item.stage, item.stat)
                               else all[i]
    ensures forall i :: 0 <= i < |after| && after[i].directory ==> SumsUp(after[i], items + [item])
  {
    hide SumsUp, IsTree;
    forall i | 0 <= i < |after| && after[i].directory
      ensures SumsUp(after[i], items + [item])
    {
      OpenIffUnder(all, item, ancestors, i);
      if item.file.Some? && i in ancestors {
        BumpedSumsUp(all[i], items, item);
      } else {
        OtherSumsUp(all[i], items, item);
      }
    }
  }

  lemma OpenIffUnder(all: seq<Entry>, item: Item, ancestors: seq<nat>, i: nat)
    requires IsTree(all, Directories(item.path), ancestors) && i < |all| && all[i].directory
    ensures i in ancestors <==> Under(item.path, all[i].path)
  {
    hide Preorder, OthersClosed;
    if Under(item.path, all[i].path) {
      UnderIsOpen(all, Directories(item.path), ancestors, item.path, i);
    }
    if i in ancestors {
      var d :| 0 <= d < |ancestors| && ancestors[d] == i;
      assert IsOpen(all, Directories(item.path), ancestors, d);
      assert Directories(item.path)[..d + 1] == item.path[..d + 1];
    }
  }

  lemma NewOnes(items: seq<Item>, item: Item, shared: nat)
    requires Sorted(items + [item]) && shared <= |Directories(item.path)|
    requires shared < |LastDirectories(items)| && shared < |Directories(item.path)| ==>
               LastDirectories(items)[shared] != Directories(item.path)[shared]
    ensures forall d :: shared <= d < |Directories(item.path)| ==> !IsAncestor(items, UpTo(Directories(item.path), d))
  {
    hide Sorted, IsAncestor;
    forall d | shared <= d < |Directories(item.path)|
      ensures !IsAncestor(items, UpTo(Directories(item.path), d))
    {
      NotYetListed(items, item, shared, d);
      assert item.path[..d + 1] == Directories(item.path)[..d + 1];
    }
  }

  lemma NewSumsUp(entry: Entry, directories: seq<string>, items: seq<Item>)
    requires IsNewAncestor(entry, directories, items)
    ensures SumsUp(entry, items)
  {
    hide ChangedUnder, IsAncestor;
    NothingUnder(items, entry.path);
    NothingSums();
  }

  lemma NothingSums()
    ensures SumOf([]) == NO_STAT
  {
  }

  lemma AllSumUp(all: seq<Entry>, after: seq<Entry>, items: seq<Item>, directories: seq<string>)
    requires Describes(all, items) && all <= after
    requires forall i :: |all| <= i < |after| ==> IsNewAncestor(after[i], directories, items)
    ensures forall i :: 0 <= i < |after| && after[i].directory ==> SumsUp(after[i], items)
  {
    hide SumsUp, IsNewAncestor;
    forall i | 0 <= i < |after| && after[i].directory
      ensures SumsUp(after[i], items)
    {
      if i < |all| {
        assert after[i] == all[i];
      } else {
        NewSumsUp(after[i], directories, items);
      }
    }
  }

  lemma AncestorPush(items: seq<Item>, item: Item, path: seq<string>)
    ensures IsAncestor(items + [item], path) <==> IsAncestor(items, path) || Under(item.path, path)
  {
    hide Under;
    var all := items + [item];
    assert all[|items|] == item;
    if IsAncestor(items, path) {
      var m :| 0 <= m < |items| && Under(items[m].path, path);
      assert Under(all[m].path, path);
    }
    if IsAncestor(all, path) {
      var m :| 0 <= m < |all| && Under(all[m].path, path);
      assert m < |items| ==> all[m] == items[m];
    }
  }

  /** The directories listed are the ancestors of what is listed, with the next path counted. */
  lemma DirectoriesListed(all: seq<Entry>, grown: seq<Entry>, chain: seq<nat>, after: seq<Entry>, items: seq<Item>,
                          item: Item, path: seq<string>)
    requires Describes(all, items) && all <= grown && path != []
    requires IsTree(grown, Directories(item.path), chain)
    requires forall i :: |all| <= i < |grown| ==> IsNewAncestor(grown[i], Directories(item.path), items)
    requires |after| == |grown| + 1 && !after[|grown|].directory
    requires SameShape(grown, after[..|grown|])
    ensures HasDirectory(after, path) <==> IsAncestor(items + [item], path)
  {
    hide SumsUp, Preorder, OthersClosed, OneEntryEach, DepthsRight, IsNewAncestor, Under, IsAncestor;
    AncestorPush(items, item, path);
    if HasDirectory(after, path) {
      var i :| 0 <= i < |after| && after[i].directory && after[i].path == path;
      assert after[..|grown|][i] == after[i];
      if i < |all| {
        assert grown[i] == all[i];
        assert HasDirectory(all, path);
      } else {
        NewIsAbove(grown[i], item, items);
      }
    }
    if IsAncestor(items, path) {
      var i :| 0 <= i < |all| && all[i].directory && all[i].path == path;
      assert grown[i] == all[i] && after[..|grown|][i] == after[i];
    }
    if Under(item.path, path) {
      OpenedDirectory(grown, item, chain, path);
      var i :| 0 <= i < |grown| && grown[i].directory && grown[i].path == path;
      assert after[..|grown|][i] == after[i];
    }
  }

  lemma NewIsAbove(entry: Entry, item: Item, items: seq<Item>)
    requires IsNewAncestor(entry, Directories(item.path), items)
    ensures Under(item.path, entry.path)
  {
    assert Directories(item.path)[..|entry.path|] == item.path[..|entry.path|];
  }

  lemma OpenedDirectory(all: seq<Entry>, item: Item, chain: seq<nat>, path: seq<string>)
    requires OpenChain(all, Directories(item.path), chain) && path != [] && Under(item.path, path)
    ensures HasDirectory(all, path)
  {
    var d := |path| - 1;
    assert IsOpen(all, Directories(item.path), chain, d);
    assert Directories(item.path)[..d + 1] == path;
  }

  /** Adds the next listed path: opens its directories, counts it into all of them, and lists it. */
  method AddItem(all: seq<Entry>, open: seq<string>, ancestors: seq<nat>, item: Item, ghost items: seq<Item>)
    returns (after: seq<Entry>, chain: seq<nat>)
    requires BuiltFrom(all, open, ancestors, items) && Sorted(items + [item])
    ensures BuiltFrom(after, Directories(item.path), chain, items + [item])
  {
    hide IsTree, Describes, SumsUp, Sorted, IsAncestor, IsNewAncestor, SameShape, FileEntries, Bumped;
    var directories := Directories(item.path);
    var shared := SharedLength(open, directories);
    ChainLength(all, open, ancestors);
    Truncated(all, open, ancestors, shared);
    assert open[..shared] == directories[..shared];
    NewOnes(items, item, shared);
    ghost var grown;
    after, chain := OpenDirectories(all, ancestors[..shared], directories, shared, item.stage, items);
    grown := after;
    AllSumUp(all, after, items, directories);
    AncestorsDistinct(after, directories, chain);
    if item.file.Some? {
      after := BumpAncestors(after, chain, item.stage, item.stat);
    }
    ghost var counted := after;
    BumpKeepsShape(grown, counted, item, chain);
    ShapeKept(grown, counted, directories, chain);
    CountedIn(grown, counted, items, item, chain);
    Pushed(counted, directories, chain, FileEntry(item));
    after := after + [FileEntry(item)];
    Described(all, grown, counted, after, items, item, chain);
  }

  lemma ChainLength(all: seq<Entry>, open: seq<string>, ancestors: seq<nat>)
    requires IsTree(all, open, ancestors)
    ensures |ancestors| == |open|
  {
  }

  lemma BumpKeepsShape(grown: seq<Entry>, counted: seq<Entry>, item: Item, chain: seq<nat>)
    requires |counted| == |grown|
    requires forall i :: 0 <= i < |grown| ==>
                           counted[i] == if item.file.Some? && i in chain then Bumped(grown[i], item.stage, item.stat)
                               else grown[i]
    ensures SameShape(grown, counted)
  {
  }

  lemma Described(all: seq<Entry>, grown: seq<Entry>, counted: seq<Entry>, after: seq<Entry>, items: seq<Item>,
                  item: Item, chain: seq<nat>)
    requires Describes(all, items) && all <= grown && IsTree(grown, Directories(item.path), chain)
    requires FileEntries(grown) == FileEntries(all) && SameShape(grown, counted) && after == counted + [FileEntry(item)]
    requires forall i :: 0 <= i < |grown| && !grown[i].directory ==> counted[i] == grown[i]
    requires forall i :: |all| <= i < |grown| ==> IsNewAncestor(grown[i], Directories(item.path), items)
    requires forall i :: 0 <= i < |counted| && counted[i].directory ==> SumsUp(counted[i], items + [item])
    ensures Describes(after, items + [item])
  {
    hide IsTree, SumsUp, IsNewAncestor, FileEntries, SameShape, DirectoriesAreAncestors, EntriesOf;
    AllDirectoriesListed(all, grown, counted, items, item, chain);
    FilesListed(all, grown, counted, items, item);
    assert forall i :: 0 <= i < |counted| ==> after[i] == counted[i];
  }

  lemma AllDirectoriesListed(all: seq<Entry>, grown: seq<Entry>, counted: seq<Entry>, items: seq<Item>, item: Item,
                             chain: seq<nat>)
    requires Describes(all, items) && all <= grown && IsTree(grown, Directories(item.path), chain)
             && SameShape(grown, counted)
    requires forall i :: |all| <= i < |grown| ==> IsNewAncestor(grown[i], Directories(item.path), items)
    ensures DirectoriesAreAncestors(counted + [FileEntry(item)], items + [item])
  {
    hide IsTree, Describes, IsNewAncestor, HasDirectory, IsAncestor, SameShape;
    var after := counted + [FileEntry(item)];
    ShapeLength(grown, counted);
    assert after[..|grown|] == counted;
    forall path: seq<string> | path != []
      ensures HasDirectory(after, path) <==> IsAncestor(items + [item], path)
    {
      DirectoriesListed(all, grown, chain, after, items, item, path);
    }
  }

  lemma ShapeLength(a: seq<Entry>, b: seq<Entry>)
    requires SameShape(a, b)
    ensures |a| == |b|
  {
  }

  lemma FilesListed(all: seq<Entry>, grown: seq<Entry>, counted: seq<Entry>, items: seq<Item>, item: Item)
    requires FileEntries(all) == EntriesOf(items) && FileEntries(grown) == FileEntries(all) && SameShape(grown, counted)
    requires forall i :: 0 <= i < |grown| && !grown[i].directory ==> counted[i] == grown[i]
    ensures FileEntries(counted + [FileEntry(item)]) == EntriesOf(items + [item])
  {
    DirectoryListsNothing(counted, FileEntry(item));
    SameFiles(grown, counted);
    assert (items + [item])[..|items|] == items;
  }

  lemma {:induction false} SameFiles(a: seq<Entry>, b: seq<Entry>)
    requires SameShape(a, b) && forall i :: 0 <= i < |a| && !a[i].directory ==> b[i] == a[i]
    ensures FileEntries(a) == FileEntries(b)
  {
    if a != [] {
      SameFiles(a[..|a| - 1], b[..|b| - 1]);
    }
  }
}
