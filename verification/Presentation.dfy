/**
 The rows of a whole document, the ranges its files and hunks take up, and the indexes from source
 lines back to rows.
 */
module Presentation {
  import opened Bytes
  import opened SourceDocuments
  import opened Hunks
  import opened Documents
  import opened Rows
  import opened GapRows
  import opened HunkRows
  import opened FileRows
  import TreeListing

  datatype ViewMode = Auto | ForceUnified | ForceSplit

  datatype Options = Options(viewMode: ViewMode, splitWhenAuto: bool, includeFileHeaders: bool)
  {
    function Layout(): Layout {
      if viewMode == ForceSplit || (viewMode == Auto && splitWhenAuto) then Split else Unified
    }
  }

  /** What is shown of a file. */
  datatype Mode = WholeSource | Folded | Placeholder | Patch

  function LayoutFor(projection: ContentProjection, options: Options): Layout {
    if projection.sourceView.Some? then Unified else options.Layout()
  }

  function ViewOf(files: seq<FileDiff>, f: nat, options: Options, projection: ContentProjection): FileView
    requires f < |files|
  {
    FileView(f, files[f], LayoutFor(projection, options).ForStatus(files[f].status), projection)
  }

  function ModeOf(view: FileView, includeFileHeaders: bool): Mode {
    if view.projection.sourceView == Some(view.file.path) then WholeSource
    else if includeFileHeaders && view.file.path in view.projection.collapsedFiles then Folded
    else if view.file.hunks == [] && view.file.path !in view.projection.fullFiles then Placeholder
    else Patch
  }

  function SourceSide(file: FileDiff): Side {
    if file.status == Deleted then Old else New
  }

  /** The cell for a line of a file shown as its source alone. */
  function SourceCell(file: FileDiff, number: nat): Cell
    requires file.Valid() && file.Source(SourceSide(file)).Captured?
  {
    var text := file.Source(SourceSide(file)).document.Line(number);
    Cell(None, Some(SourceLineRef(SourceSide(file), number)), Verbatim(if text.Some? then text.value else []))
  }

  /** The first `n` lines of the file's own side. */
  ghost function SourceCells(file: FileDiff, n: nat): seq<Cell>
    requires file.Valid()
  {
    if n == 0 || file.Source(SourceSide(file)).Missing? then [] else SourceCells(file, n - 1) + [SourceCell(file, n)]
  }

  /** What is listed of a file on a side. */
  ghost function ShownCells(view: FileView, includeFileHeaders: bool, side: Side): seq<Cell>
    requires view.Valid()
  {
    match ModeOf(view, includeFileHeaders)
    case WholeSource => if side == SourceSide(view.file) then SourceCells(view.file, view.Count(side)) else []
    case Patch => view.Cells(side)
    case _ => []
  }

  ghost function ShownHidden(view: FileView, includeFileHeaders: bool): nat {
    if ModeOf(view, includeFileHeaders) == Patch then view.HiddenBefore(|view.file.hunks| + 1) else 0
  }

  // ---- bookkeeping while rows are appended -------------------------------

  ghost predicate SameBelow(info: map<nat, GapInfo>, other: map<nat, GapInfo>, n: nat) {
    forall i: nat :: i < n ==> (i in info <==> i in other) && (i in info ==> info[i] == other[i])
  }

  ghost predicate RowsOfFile(rows: seq<Row>, from: nat, fileIndex: nat) {
    forall i :: from <= i < |rows| ==> rows[i].fileIndex == fileIndex
  }

  /** From `before` on, only rows of one file were appended; their gap rows stand for `hidden` lines. */
  ghost predicate Appended(before: seq<Row>, was: map<nat, GapInfo>, after: seq<Row>, info: map<nat, GapInfo>,
                           fileIndex: nat, hidden: nat)
  {
    && before <= after && IndexesGaps(info, after) && SameBelow(was, info, |before|)
    && RowsOfFile(after, |before|, fileIndex) && HiddenLines(info, |before|, |after|) == hidden
  }

  lemma NothingAppended(rows: seq<Row>, info: map<nat, GapInfo>, fileIndex: nat)
    requires IndexesGaps(info, rows)
    ensures Appended(rows, info, rows, info, fileIndex, 0)
  {
  }

  lemma PlainRowsAppended(before: seq<Row>, was: map<nat, GapInfo>, rows: seq<Row>, after: seq<Row>,
                          info: map<nat, GapInfo>, fileIndex: nat, hidden: nat)
    requires Appended(before, was, rows, info, fileIndex, hidden) && rows <= after
    requires forall i :: |rows| <= i < |after| ==> after[i].kind != ExpandGap && after[i].fileIndex == fileIndex
    ensures Appended(before, was, after, info, fileIndex, hidden)
  {
    hide HiddenLines;
    forall i: nat
      ensures i in info <==> i < |after| && after[i].kind == ExpandGap
    {
    }
    NothingHidden(info, |rows|, |after|);
    HiddenLinesJoin(info, |before|, |rows|, |after|);
  }

  lemma GapAppended(before: seq<Row>, was: map<nat, GapInfo>, rows: seq<Row>, rowsInfo: map<nat, GapInfo>,
                    after: seq<Row>, info: map<nat, GapInfo>, view: GapView, gapRow: Option<nat>, hidden: nat)
    requires view.Valid() && Appended(before, was, rows, rowsInfo, view.fileIndex, hidden)
    requires rows <= after && IndexesGaps(info, after)
    requires forall i :: |rows| <= i < |after| ==> view.FromGap(after[i])
    requires gapRow.Some? <==> view.HasGapRow()
    requires gapRow.None? ==> info == rowsInfo
    requires gapRow.Some? ==> |rows| <= gapRow.value < |after| && gapRow.value in info
                              && info == rowsInfo[gapRow.value := info[gapRow.value]]
                              && info[gapRow.value].hidden == view.Hidden()
    ensures Appended(before, was, after, info, view.fileIndex, hidden + if view.HasGapRow() then view.Hidden() else 0)
  {
    hide HiddenLines, GapView.HasGapRow, GapView.Hidden;
    HiddenLinesSame(rowsInfo, info, |before|, |rows|);
    HiddenLinesJoin(info, |before|, |rows|, |after|);
    if gapRow.None? {
      NothingHidden(info, |rows|, |after|);
    } else {
      OneHidden(info, |rows|, gapRow.value, |after|);
    }
  }

  lemma OneHidden(info: map<nat, GapInfo>, lo: nat, at: nat, hi: nat)
    requires lo <= at < hi && at in info
    requires forall i :: lo <= i < hi && i != at ==> i !in info
    ensures HiddenLines(info, lo, hi) == info[at].hidden
  {
    NothingHidden(info, lo, at);
    NothingHidden(info, at + 1, hi);
    HiddenLinesJoin(info, lo, at, hi);
    HiddenLinesJoin(info, at, at + 1, hi);
  }

  // ---- one file ----------------------------------------------------------

  lemma LabelListsNothing(rows: seq<Row>, kind: RowKind, fileIndex: nat)
    ensures forall side :: LinesOn(rows + [LabelRow(kind, fileIndex, None)], side) == LinesOn(rows, side)
  {
    hide LinesOn;
    forall side
      ensures LinesOn(rows + [LabelRow(kind, fileIndex, None)], side) == LinesOn(rows, side)
    {
      LinesOnPush(rows, LabelRow(kind, fileIndex, None), side);
    }
  }

  function SourceRow(fileIndex: nat, file: FileDiff, number: nat): Row
    requires file.Valid() && file.Source(SourceSide(file)).Captured?
  {
    var cell := Some(SourceCell(file, number));
    if SourceSide(file) == Old then Row(ExpandedContext, fileIndex, None, cell, None)
    else Row(ExpandedContext, fileIndex, None, None, cell)
  }

  /** Every line of the file's own side, or one row saying why there is none. */
  method AppendSourceRows(rows: seq<Row>, fileIndex: nat, file: FileDiff) returns (after: seq<Row>)
    requires file.Valid()
    ensures rows <= after
    ensures forall i :: |rows| <= i < |after| ==> after[i].fileIndex == fileIndex && after[i].kind != ExpandGap
    ensures forall side :: LinesOn(after, side) == LinesOn(rows, side)
                           + if side == SourceSide(file) then SourceCells(file, file.Source(side).LineCount()) else []
    ensures file.Source(SourceSide(file)).LineCount() == 0 ==> after == rows + [LabelRow(MetaRow, fileIndex, None)]
  {
    hide LinesOn, SourceCell, SourceRow;
    var source := file.Source(SourceSide(file));
    if source.LineCount() == 0 {
      LabelListsNothing(rows, MetaRow, fileIndex);
      return rows + [LabelRow(MetaRow, fileIndex, None)];
    }
    after := rows;
    for n := 0 to source.LineCount()
      invariant rows <= after
      invariant forall i :: |rows| <= i < |after| ==> after[i].fileIndex == fileIndex && after[i].kind != ExpandGap
      invariant forall side :: LinesOn(after, side)
                            == LinesOn(rows, side) + if side == SourceSide(file) then SourceCells(file, n) else []
    {
      var row := SourceRow(fileIndex, file, n + 1);
      SourceRowKind(fileIndex, file, n + 1);
      forall side
        ensures LinesOn(after + [row], side)
             == LinesOn(rows, side) + if side == SourceSide(file) then SourceCells(file, n + 1) else []
      {
        SourceRowLists(fileIndex, file, n, side);
        LinesOnPush(after, row, side);
      }
      after := after + [row];
    }
  }

  lemma SourceRowKind(fileIndex: nat, file: FileDiff, number: nat)
    requires file.Valid() && file.Source(SourceSide(file)).Captured?
    ensures SourceRow(fileIndex, file, number).kind == ExpandedContext
            && SourceRow(fileIndex, file, number).fileIndex == fileIndex
  {
  }

  lemma SourceRowLists(fileIndex: nat, file: FileDiff, n: nat, side: Side)
    requires file.Valid() && file.Source(SourceSide(file)).Captured?
    ensures SourceRow(fileIndex, file, n + 1).Lines(side) == if side == SourceSide(file)
            then [SourceCell(file, n + 1)] else []
    ensures SourceCells(file, n + 1) == SourceCells(file, n) + [SourceCell(file, n + 1)]
  {
  }

  /** Where each hunk's rows are. */
  ghost predicate HunksShown(rows: seq<Row>, ranges: seq<Range>, view: FileView) {
    |ranges| <= |view.file.hunks| && forall k :: 0 <= k < |ranges| ==> HunkShown(rows, ranges[k], view, k)
  }

  ghost predicate HunkShown(rows: seq<Row>, range: Range, view: FileView, k: nat)
    requires k < |view.file.hunks|
  {
    && range.start <= range.end <= |rows|
    && (forall side :: LinesOn(rows[range.start..range.end], side) == view.HunkCells(k, side))
    && AllFromHunk(rows[range.start..range.end], 0, view.fileIndex, k, view.file.hunks[k].lines)
  }

  lemma HunksStayShown(rows: seq<Row>, after: seq<Row>, ranges: seq<Range>, view: FileView)
    requires HunksShown(rows, ranges, view) && rows <= after
    ensures HunksShown(after, ranges, view)
  {
    hide LinesOn, FileView.HunkCells, FromHunk;
    forall k | 0 <= k < |ranges|
      ensures HunkShown(after, ranges[k], view, k)
    {
      assert after[ranges[k].start..ranges[k].end] == rows[ranges[k].start..ranges[k].end];
    }
  }

  /** The rows of one hunk. */
  method AppendHunk(rows: seq<Row>, view: FileView, k: nat, differ: Differ) returns (after: seq<Row>)
    requires k < |view.file.hunks| && DifferContract(differ)
    ensures rows <= after && HunkShown(after, Range(|rows|, |after|), view, k)
    ensures forall side :: LinesOn(after, side) == LinesOn(rows, side) + view.HunkCells(k, side)
    ensures forall i :: |rows| <= i < |after| ==> after[i].kind != ExpandGap && after[i].fileIndex == view.fileIndex
  {
    hide LinesOn, PatchCells, FromHunk, AllFromHunk;
    var lines := view.file.hunks[k].lines;
    if view.layout == Unified {
      after := AppendUnifiedRows(rows, view.fileIndex, k, lines);
    } else {
      after := AppendSplitRows(rows, differ, view.fileIndex, k, lines);
    }
    assert after[|rows|..|after|] == after[|rows|..];
    forall side
      ensures LinesOn(after[|rows|..|after|], side) == view.HunkCells(k, side)
    {
      LinesOnAppended(rows, after, side, view.HunkCells(k, side));
    }
    HunkRowKinds(after, |rows|, view.fileIndex, k, lines);
  }

  lemma HunkRowKinds(rows: seq<Row>, from: nat, fileIndex: nat, hunkIndex: nat, lines: seq<PatchLine>)
    requires from <= |rows| && AllFromHunk(rows, from, fileIndex, hunkIndex, lines)
    ensures forall i :: from <= i < |rows| ==> rows[i].kind != ExpandGap && rows[i].fileIndex == fileIndex
    ensures AllFromHunk(rows[from..], 0, fileIndex, hunkIndex, lines)
    ensures rows[from..] == rows[from..|rows|]
  {
    forall i | from <= i < |rows|
      ensures rows[i].kind != ExpandGap && rows[i].fileIndex == fileIndex
    {
      assert FromHunk(rows[i], fileIndex, hunkIndex, lines);
    }
  }

  /** Gaps and hunks in turn, the last gap after them. */
  method AppendPatch(rows: seq<Row>, info: map<nat, GapInfo>, view: FileView, differ: Differ)
    returns (after: seq<Row>, afterInfo: map<nat, GapInfo>, hunkRanges: seq<Range>)
    requires view.Valid() && DifferContract(differ) && IndexesGaps(info, rows)
    ensures Appended(rows, info, after, afterInfo, view.fileIndex, view.HiddenBefore(|view.file.hunks| + 1))
    ensures forall side :: LinesOn(after, side) == LinesOn(rows, side) + view.Cells(side)
    ensures HunksShown(after, hunkRanges, view) && |hunkRanges| == |view.file.hunks|
  {
    hide LinesOn, HunkShown, Appended, IndexesGaps, FileView.GapCells, FileView.HunkCells, GapView.FromGap, AreGaps;
    hide GapView.HasGapRow, GapView.Hidden, HunksShown, FileView.CellsBefore, FileView.HiddenBefore, GapView.Revealed;
    var gaps := GapsForFile(view.file.hunks, view.Count(Old), view.Count(New));
    after, afterInfo, hunkRanges := rows, info, [];
    NothingAppended(rows, info, view.fileIndex);
    NothingShown(view, rows);
    for k := 0 to |view.file.hunks|
      invariant Appended(rows, info, after, afterInfo, view.fileIndex, view.HiddenBefore(k))
      invariant forall side :: LinesOn(after, side) == LinesOn(rows, side) + view.CellsBefore(k, side)
      invariant HunksShown(after, hunkRanges, view) && |hunkRanges| == k
    {
      ghost var earlier := after;
      after, afterInfo := AppendGap(rows, info, after, afterInfo, view, gaps, k);
      ghost var gapRows := after;
      var hunkStart := |after|;
      after := AppendHunk(after, view, k, differ);
      PlainRowsAppended(rows, info, gapRows, after, afterInfo, view.fileIndex, view.HiddenBefore(k + 1));
      HunksStayShown(earlier, after, hunkRanges, view);
      NextShown(view, gapRows, after, hunkRanges, k);
      hunkRanges := hunkRanges + [Range(hunkStart, |after|)];
    }
    ghost var hunkRows := after;
    after, afterInfo := AppendGap(rows, info, after, afterInfo, view, gaps, |view.file.hunks|);
    HunksStayShown(hunkRows, after, hunkRanges, view);
  }

  /** One gap, and what it adds to the listing and the count of hidden lines. */
  method AppendGap(ghost before: seq<Row>, ghost was: map<nat, GapInfo>, rows: seq<Row>, info: map<nat, GapInfo>,
                   view: FileView, gaps: seq<GapInterval>, k: nat)
    returns (after: seq<Row>, afterInfo: map<nat, GapInfo>)
    requires view.Valid() && AreGaps(gaps, view.file.hunks, view.Count(Old), view.Count(New)) && k <= |view.file.hunks|
    requires Appended(before, was, rows, info, view.fileIndex, view.HiddenBefore(k))
    ensures rows <= after && Appended(before, was, after, afterInfo, view.fileIndex, view.HiddenBefore(k + 1))
    ensures forall side :: LinesOn(after, side) == LinesOn(rows, side) + view.GapCells(k, side)
  {
    hide LinesOn, GapView.FromGap, IndexesGaps, GapView.HasGapRow, GapView.Hidden, HiddenLines, SameBelow, RowsOfFile,
         GapView.Revealed;
    hide FileView.GapInterval;
    var gapView := GapView(view.fileIndex, k, view.file, gaps[k], view.layout, view.projection);
    GapAtHand(view, gaps, k);
    ghost var gapRow;
    after, afterInfo, gapRow := AppendGapProjection(rows, info, gapView);
    GapAppended(before, was, rows, info, after, afterInfo, gapView, gapRow, view.HiddenBefore(k));
  }

  lemma GapAtHand(view: FileView, gaps: seq<GapInterval>, k: nat)
    requires AreGaps(gaps, view.file.hunks, view.Count(Old), view.Count(New)) && k <= |view.file.hunks|
    ensures |gaps| == |view.file.hunks| + 1 && gaps[k] == view.GapInterval(k)
  {
  }

  lemma NothingShown(view: FileView, rows: seq<Row>)
    requires view.Valid()
    ensures view.HiddenBefore(0) == 0 && HunksShown(rows, [], view)
    ensures forall side :: view.CellsBefore(0, side) == []
  {
  }

  lemma NextShown(view: FileView, rows: seq<Row>, after: seq<Row>, ranges: seq<Range>, k: nat)
    requires view.Valid() && k < |view.file.hunks| && rows <= after && |ranges| == k
    requires HunkShown(after, Range(|rows|, |after|), view, k)
    ensures HunksShown(after, ranges, view) ==> HunksShown(after, ranges + [Range(|rows|, |after|)], view)
    ensures forall side ::
              view.CellsBefore(k + 1, side) == view.CellsBefore(k, side) + view.GapCells(k, side)
                                               + view.HunkCells(k, side)
  {
    hide HunkShown, FileView.GapCells, FileView.HunkCells;
  }

  /** Shows one file: its header, and what its mode calls for. */
  method AppendFile(rows: seq<Row>, info: map<nat, GapInfo>, view: FileView, includeFileHeaders: bool, differ: Differ)
    returns (after: seq<Row>, afterInfo: map<nat, GapInfo>, hunkRanges: seq<Range>, collapsed: bool)
    requires view.Valid() && DifferContract(differ) && IndexesGaps(info, rows)
    ensures Appended(rows, info, after, afterInfo, view.fileIndex, ShownHidden(view, includeFileHeaders))
    ensures forall side :: LinesOn(after, side) == LinesOn(rows, side) + ShownCells(view, includeFileHeaders, side)
    ensures HunksShown(after, hunkRanges, view)
    ensures |hunkRanges| == if ModeOf(view, includeFileHeaders) == Patch then |view.file.hunks| else 0
    ensures collapsed <==> ModeOf(view, includeFileHeaders) == Folded
    ensures includeFileHeaders ==> |after| > |rows| && after[|rows|] == LabelRow(FileHeader, view.fileIndex, None)
  {
    hide LinesOn, HunkShown, Appended, IndexesGaps, FileView.GapCells, FileView.CellsBefore, FileView.HiddenBefore,
         SourceCells;
    after, afterInfo, hunkRanges, collapsed := rows, info, [], false;
    NothingAppended(rows, info, view.fileIndex);
    if includeFileHeaders {
      LabelListsNothing(after, FileHeader, view.fileIndex);
      after := after + [LabelRow(FileHeader, view.fileIndex, None)];
      PlainRowsAppended(rows, info, rows, after, info, view.fileIndex, 0);
    }
    ghost var headed := after;
    if view.projection.sourceView == Some(view.file.path) {
      after := AppendSourceRows(after, view.fileIndex, view.file);
      PlainRowsAppended(rows, info, headed, after, info, view.fileIndex, 0);
      return;
    }
    if includeFileHeaders && view.file.path in view.projection.collapsedFiles {
      collapsed := true;
      return;
    }
    if view.file.hunks == [] && view.file.path !in view.projection.fullFiles {
      LabelListsNothing(after, MetaRow, view.fileIndex);
      after := after + [LabelRow(MetaRow, view.fileIndex, None)];
      PlainRowsAppended(rows, info, headed, after, info, view.fileIndex, 0);
      return;
    }
    AppendedIndexes(rows, info, after, afterInfo, view.fileIndex, 0);
    after, afterInfo, hunkRanges := AppendPatch(after, afterInfo, view, differ);
    AppendedIndexes(headed, info, after, afterInfo, view.fileIndex, view.HiddenBefore(|view.file.hunks| + 1));
    AppendedJoin(rows, info, headed, info, after, afterInfo, view.fileIndex, view.HiddenBefore(|view.file.hunks| + 1));
  }

  lemma AppendedIndexes(before: seq<Row>, was: map<nat, GapInfo>, after: seq<Row>, info: map<nat, GapInfo>,
                        fileIndex: nat, hidden: nat)
    requires Appended(before, was, after, info, fileIndex, hidden)
    ensures IndexesGaps(info, after) && before <= after
  {
  }

  lemma AppendedJoin(before: seq<Row>, was: map<nat, GapInfo>, rows: seq<Row>, rowsInfo: map<nat, GapInfo>,
                     after: seq<Row>, info: map<nat, GapInfo>, fileIndex: nat, hidden: nat)
    requires Appended(before, was, rows, rowsInfo, fileIndex, 0)
             && Appended(rows, rowsInfo, after, info, fileIndex, hidden)
    ensures Appended(before, was, after, info, fileIndex, hidden)
  {
    hide HiddenLines;
    HiddenLinesSame(rowsInfo, info, |before|, |rows|);
    HiddenLinesJoin(info, |before|, |rows|, |after|);
    forall i | |before| <= i < |after|
      ensures after[i].fileIndex == fileIndex
    {
      assert i < |rows| ==> after[i] == rows[i];
    }
  }

  // ---- the document ------------------------------------------------------

  /** A source line of a file, as the indexes are keyed. */
  datatype LineKey = LineKey(fileIndex: nat, side: Side, number: nat)

  datatype Presented = Presented(rows: seq<Row>, anchorRows: map<LineKey, nat>, sourceRows: map<LineKey, nat>,
                                 gapInfo: map<nat, GapInfo>, fileOrder: seq<nat>, fileRanges: seq<Range>,
                                 hunkRanges: seq<seq<Range>>, collapsed: seq<bool>)

  /** The row shows the line; an anchor asks for a line of the patch. */
  ghost predicate Shows(row: Row, key: LineKey, ofPatch: bool) {
    && row.fileIndex == key.fileIndex && row.CellOn(key.side).Some?
    && var cell := row.CellOn(key.side).value;
       && cell.sourceLine == Some(SourceLineRef(key.side, key.number))
       && (ofPatch ==> cell.patchSource.Some?)
  }

  /** Looking a line up finds the last row a scan would. */
  ghost predicate FindsLast(index: map<LineKey, nat>, rows: seq<Row>, ofPatch: bool) {
    && (forall key :: key in index ==> index[key] < |rows| && Shows(rows[index[key]], key, ofPatch))
    && (forall key, i :: 0 <= i < |rows| && Shows(rows[i], key, ofPatch) ==> key in index && i <= index[key])
  }

  ghost predicate SidesMatch(rows: seq<Row>) {
    forall i, side :: 0 <= i < |rows| ==> CellMatches(rows[i], side)
  }

  /** A cell shows a line of the side it stands on. */
  ghost predicate CellMatches(row: Row, side: Side) {
    row.CellOn(side).Some? && row.CellOn(side).value.sourceLine.Some? ==>
      && row.CellOn(side).value.sourceLine.value.side == side
      && (row.CellOn(side).value.patchSource.Some? ==> row.CellOn(side).value.patchSource.value.side == side)
  }

  /** Adds what one cell shows to an index. */
  function IndexCell(index: map<LineKey, nat>, row: Row, at: nat, side: Side, ofPatch: bool): map<LineKey, nat> {
    var cell := row.CellOn(side);
    if cell.None? || cell.value.sourceLine.None? || (ofPatch && cell.value.patchSource.None?) then index
    else
      var line := cell.value.sourceLine.value;
      index[LineKey(row.fileIndex, if ofPatch then cell.value.patchSource.value.side else line.side, line.number) := at]
  }

  method IndexRows(rows: seq<Row>, ofPatch: bool) returns (index: map<LineKey, nat>)
    requires SidesMatch(rows)
    ensures FindsLast(index, rows, ofPatch)
  {
    index := map[];
    for at := 0 to |rows|
      invariant FindsLast(index, rows[..at], ofPatch)
    {
      var next := IndexCell(IndexCell(index, rows[at], at, Old, ofPatch), rows[at], at, New, ofPatch);
      NextRowIndexed(index, rows, at, ofPatch);
      index := next;
    }
    assert rows[..|rows|] == rows;
  }

  lemma NextRowIndexed(index: map<LineKey, nat>, rows: seq<Row>, at: nat, ofPatch: bool)
    requires at < |rows| && CellMatches(rows[at], Old) && CellMatches(rows[at], New)
             && FindsLast(index, rows[..at], ofPatch)
    ensures FindsLast(IndexCell(IndexCell(index, rows[at], at, Old, ofPatch), rows[at], at, New, ofPatch),
                      rows[..at + 1], ofPatch)
  {
    var row, more := rows[at], rows[..at + 1];
    var next := IndexCell(IndexCell(index, row, at, Old, ofPatch), row, at, New, ofPatch);
    assert more[..at] == rows[..at] && more[at] == row;
    forall key
      ensures key in next <==> key in index || Shows(row, key, ofPatch)
      ensures key in next ==> next[key] == if Shows(row, key, ofPatch) then at else index[key]
    {
      IndexedCell(index, row, at, ofPatch, key);
    }
    forall key, i | 0 <= i < |more| && Shows(more[i], key, ofPatch)
      ensures key in next && i <= next[key]
    {
      if i < at {
        assert rows[..at][i] == more[i];
      }
    }
    forall key | key in next
      ensures next[key] < |more| && Shows(more[next[key]], key, ofPatch)
    {
      if !Shows(row, key, ofPatch) {
        assert more[index[key]] == rows[..at][index[key]];
      }
    }
  }

  lemma IndexedCell(index: map<LineKey, nat>, row: Row, at: nat, ofPatch: bool, key: LineKey)
    requires CellMatches(row, Old) && CellMatches(row, New)
    ensures var next := IndexCell(IndexCell(index, row, at, Old, ofPatch), row, at, New, ofPatch);
            && (key in next <==> key in index || Shows(row, key, ofPatch))
            && (key in next ==> next[key] == if Shows(row, key, ofPatch) then at else index[key])
  {
  }

  // Every cell stands on the side of the line it shows.

  lemma {:induction false} PatchOnSide(hunkIndex: nat, lines: seq<PatchLine>, indices: seq<nat>, layout: Layout,
                                       side: Side)
    requires Within(indices, lines)
    ensures OnSide(PatchCells(hunkIndex, lines, indices, layout, side), side)
  {
    if indices != [] {
      var init, last := indices[..|indices| - 1], indices[|indices| - 1];
      PatchOnSide(hunkIndex, lines, init, layout, side);
      OnSideConcat(PatchCells(hunkIndex, lines, init, layout, side),
                   if Listed(layout, lines[last], side) then [CodeCell(side, hunkIndex, last, lines[last])]
                       else [], side);
    }
  }

  lemma {:induction false} CellsBeforeOnSide(view: FileView, k: nat, side: Side)
    requires view.Valid() && k <= |view.file.hunks|
    ensures OnSide(view.CellsBefore(k, side), side)
  {
    hide OnSide, FileView.GapCells, PatchCells;
    NothingListedYet(view, side);
    if k > 0 {
      CellsBeforeOnSide(view, k - 1, side);
      GapAscends(view, k - 1, side);
      var lines := view.file.hunks[k - 1].lines;
      AllWithin(lines);
      PatchOnSide(k - 1, lines, Span(0, |lines|), view.layout, side);
      PartsListed(view, k - 1, side);
    }
  }

  lemma {:induction false} SourceOnSide(file: FileDiff, n: nat)
    requires file.Valid()
    ensures OnSide(SourceCells(file, n), SourceSide(file))
    ensures file.Source(SourceSide(file)).Captured? ==> Numbers(SourceCells(file, n)) == Span(1, n + 1)
  {
    hide FileDiff.Valid;
    if n > 0 && file.Source(SourceSide(file)).Captured? {
      SourceOnSide(file, n - 1);
      OnSideConcat(SourceCells(file, n - 1), [SourceCell(file, n)], SourceSide(file));
      SpanJoin(1, n, n + 1);
    }
  }

  lemma ShownOnSide(view: FileView, includeFileHeaders: bool, side: Side)
    requires view.Valid()
    ensures OnSide(ShownCells(view, includeFileHeaders, side), side)
  {
    hide OnSide, FileView.GapCells, FileView.CellsBefore, SourceCells;
    var n := |view.file.hunks|;
    NoNumbers();
    CellsBeforeOnSide(view, n, side);
    GapAscends(view, n, side);
    OnSideConcat(view.CellsBefore(n, side), view.GapCells(n, side), side);
    SourceOnSide(view.file, view.Count(SourceSide(view.file)));
  }

  lemma {:induction false} RowCellsListed(rows: seq<Row>, side: Side, i: nat)
    requires i < |rows|
    ensures forall c :: c in rows[i].Lines(side) ==> c in LinesOn(rows, side)
  {
    if i < |rows| - 1 {
      RowCellsListed(rows[..|rows| - 1], side, i);
    }
  }

  lemma ListedSidesMatch(rows: seq<Row>)
    requires forall side :: OnSide(LinesOn(rows, side), side)
    ensures SidesMatch(rows)
  {
    hide LinesOn;
    forall i, side | 0 <= i < |rows|
      ensures CellMatches(rows[i], side)
    {
      RowCellsListed(rows, side, i);
      assert OnSide(LinesOn(rows, side), side);
      var cell := rows[i].CellOn(side);
      if cell.Some? && cell.value.sourceLine.Some? {
        assert cell.value in rows[i].Lines(side);
      }
    }
  }

  // ---- building the presentation -----------------------------------------

  /** The rows in a range are the file's and show what it is to show. */
  ghost predicate FileShown(rows: seq<Row>, info: map<nat, GapInfo>, range: Range, view: FileView,
                            includeFileHeaders: bool)
    requires view.Valid()
  {
    && range.start <= range.end <= |rows|
    && (forall i :: 0 <= i < |rows| ==> (rows[i].fileIndex == view.fileIndex <==> range.start <= i < range.end))
    && (forall side :: LinesOn(rows[range.start..range.end], side) == ShownCells(view, includeFileHeaders, side))
    && HiddenLines(info, range.start, range.end) == ShownHidden(view, includeFileHeaders)
  }

  lemma FileStaysShown(rows: seq<Row>, info: map<nat, GapInfo>, after: seq<Row>, afterInfo: map<nat, GapInfo>,
                       range: Range, view: FileView, includeFileHeaders: bool, other: nat, hidden: nat)
    requires view.Valid() && FileShown(rows, info, range, view, includeFileHeaders) && other != view.fileIndex
    requires Appended(rows, info, after, afterInfo, other, hidden)
    ensures FileShown(after, afterInfo, range, view, includeFileHeaders)
  {
    hide LinesOn, ShownCells, ShownHidden, HiddenLines;
    assert after[range.start..range.end] == rows[range.start..range.end];
    HiddenLinesSame(info, afterInfo, range.start, range.end);
    forall i | 0 <= i < |after|
      ensures after[i].fileIndex == view.fileIndex <==> range.start <= i < range.end
    {
      if i < |rows| {
        assert after[i] == rows[i];
      }
    }
  }

  lemma FileNowShown(rows: seq<Row>, info: map<nat, GapInfo>, after: seq<Row>, afterInfo: map<nat, GapInfo>,
                     view: FileView, includeFileHeaders: bool)
    requires view.Valid() && Appended(rows, info, after, afterInfo, view.fileIndex,
                                      ShownHidden(view, includeFileHeaders))
    requires forall side :: LinesOn(after, side) == LinesOn(rows, side) + ShownCells(view, includeFileHeaders, side)
    requires forall i :: 0 <= i < |rows| ==> rows[i].fileIndex != view.fileIndex
    ensures FileShown(after, afterInfo, Range(|rows|, |after|), view, includeFileHeaders)
  {
    hide LinesOn, ShownCells, ShownHidden, HiddenLines;
    forall side
      ensures LinesOn(after[|rows|..|after|], side) == ShownCells(view, includeFileHeaders, side)
    {
      LinesOnAppended(rows, after, side, ShownCells(view, includeFileHeaders, side));
      assert after[|rows|..|after|] == after[|rows|..];
    }
    forall i | 0 <= i < |after|
      ensures after[i].fileIndex == view.fileIndex <==> |rows| <= i < |after|
    {
      if i < |rows| {
        assert after[i] == rows[i];
      }
    }
  }

  /** The first `k` files of the order have been shown, one after another, and nothing else. */
  ghost predicate ShownSoFar(p: Presented, files: seq<FileDiff>, options: Options, projection: ContentProjection,
                             k: nat)
    requires forall f :: 0 <= f < |files| ==> files[f].Valid()
  {
    && k <= |p.fileOrder| && (forall i :: 0 <= i < |p.fileOrder| ==> p.fileOrder[i] < |files|)
    && |p.fileRanges| == |p.hunkRanges| == |p.collapsed| == |files|
    && IndexesGaps(p.gapInfo, p.rows)
    && (forall i :: 0 <= i < k ==> OneShown(p, files, options, projection, p.fileOrder[i]))
    && (forall r :: 0 <= r < |p.rows| ==> p.rows[r].fileIndex in p.fileOrder[..k])
    && InTurn(p, k)
  }

  /** Where the first `k` files of the order end. */
  ghost function EndOf(p: Presented, k: nat): nat
    requires k <= |p.fileOrder| && forall i :: 0 <= i < |p.fileOrder| ==> p.fileOrder[i] < |p.fileRanges|
  {
    if k == 0 then 0 else p.fileRanges[p.fileOrder[k - 1]].end
  }

  /** The files' ranges follow one another. */
  ghost predicate InTurn(p: Presented, k: nat)
    requires k <= |p.fileOrder| && forall i :: 0 <= i < |p.fileOrder| ==> p.fileOrder[i] < |p.fileRanges|
  {
    && (forall i :: 0 <= i < k ==> p.fileRanges[p.fileOrder[i]].start == EndOf(p, i))
    && |p.rows| == EndOf(p, k)
  }

  ghost predicate OneShown(p: Presented, files: seq<FileDiff>, options: Options, projection: ContentProjection, f: nat)
    requires f < |files| && files[f].Valid() && |p.fileRanges| == |p.hunkRanges| == |p.collapsed| == |files|
  {
    var view := ViewOf(files, f, options, projection);
    && FileShown(p.rows, p.gapInfo, p.fileRanges[f], view, options.includeFileHeaders)
    && HunksShown(p.rows, p.hunkRanges[f], view)
    && |p.hunkRanges[f]| == (if ModeOf(view, options.includeFileHeaders) == Patch then |files[f].hunks| else 0)
    && (p.collapsed[f] <==> ModeOf(view, options.includeFileHeaders) == Folded)
  }

  /** What a presentation of a document promises. */
  ghost predicate Presents(p: Presented, files: seq<FileDiff>, options: Options, projection: ContentProjection) {
    && (forall f :: 0 <= f < |files| ==> files[f].Valid())
    && IsOrder(p.fileOrder, |files|) && ShownSoFar(p, files, options, projection, |p.fileOrder|)
    && FindsLast(p.anchorRows, p.rows, true) && FindsLast(p.sourceRows, p.rows, false)
  }

  /** Shows every file of the document, in the given order. */
  method PresentFiles(files: seq<FileDiff>, fileOrder: seq<nat>, options: Options, projection: ContentProjection,
                      differ: Differ)
    returns (p: Presented)
    requires (forall f :: 0 <= f < |files| ==> files[f].Valid()) && DifferContract(differ)
    requires IsOrder(fileOrder, |files|)
    ensures p.fileOrder == fileOrder && ShownSoFar(p, files, options, projection, |fileOrder|) && SidesMatch(p.rows)
  {
    hide LinesOn, Appended, ShownCells, ShownHidden, HunksShown, OnSide, IndexesGaps, ShownSoFar, SidesMatch, IsOrder;
    p := Presented([], map[], map[], map[], fileOrder, seq(|files|, _ => Range(0, 0)), seq(|files|, _ => []),
                   seq(|files|, _ => false));
    NothingYet(p, files, options, projection);
    for k := 0 to |fileOrder|
      invariant p.fileOrder == fileOrder && ShownSoFar(p, files, options, projection, k)
      invariant forall side :: OnSide(LinesOn(p.rows, side), side)
    {
      var f := fileOrder[k];
      ShownLengths(p, files, options, projection, k);
      var view := ViewOf(files, f, options, projection);
      var rows, info, hunkRanges, collapsed := AppendFile(p.rows, p.gapInfo, view, options.includeFileHeaders, differ);
      AllOnSide(p.rows, rows, view, options.includeFileHeaders);
      var next := p.(rows := rows, gapInfo := info, fileRanges := p.fileRanges[f := Range(|p.rows|, |rows|)],
                     hunkRanges := p.hunkRanges[f := hunkRanges], collapsed := p.collapsed[f := collapsed]);
      NextFileShown(p, next, files, options, projection, k);
      p := next;
    }
    ListedSidesMatch(p.rows);
  }

  lemma AllOnSide(rows: seq<Row>, after: seq<Row>, view: FileView, includeFileHeaders: bool)
    requires view.Valid() && forall side :: OnSide(LinesOn(rows, side), side)
    requires forall side :: LinesOn(after, side) == LinesOn(rows, side) + ShownCells(view, includeFileHeaders, side)
    ensures forall side :: OnSide(LinesOn(after, side), side)
  {
    hide LinesOn, ShownCells, OnSide;
    forall side
      ensures OnSide(LinesOn(after, side), side)
    {
      ShownOnSide(view, includeFileHeaders, side);
      OnSideConcat(LinesOn(rows, side), ShownCells(view, includeFileHeaders, side), side);
    }
  }

  /** Shows every file of the document once, in the order of the file tree, and indexes the rows. */
  method WithProjection(files: seq<FileDiff>, options: Options, projection: ContentProjection, differ: Differ)
    returns (p: Presented)
    requires (forall f :: 0 <= f < |files| ==> files[f].Valid()) && DifferContract(differ)
    ensures Presents(p, files, options, projection) && TreeListing.InOrder(TreeListing.PathsOf(files), p.fileOrder)
  {
    hide ShownSoFar, SidesMatch, FindsLast, IsOrder, TreeListing.InOrder;
    var fileOrder := TreeListing.TreeOrder(files);
    p := PresentFiles(files, fileOrder, options, projection, differ);
    var anchorRows := IndexRows(p.rows, true);
    var sourceRows := IndexRows(p.rows, false);
    ghost var shown := p;
    p := p.(anchorRows := anchorRows, sourceRows := sourceRows);
    SameRowsShown(shown, p, files, options, projection, |fileOrder|);
  }

  lemma NothingYet(p: Presented, files: seq<FileDiff>, options: Options, projection: ContentProjection)
    requires (forall f :: 0 <= f < |files| ==> files[f].Valid()) && IsOrder(p.fileOrder, |files|)
    requires p.rows == [] && p.gapInfo == map[] && |p.fileRanges| == |p.hunkRanges| == |p.collapsed| == |files|
    ensures ShownSoFar(p, files, options, projection, 0) && forall side :: OnSide(LinesOn(p.rows, side), side)
  {
    hide OneShown;
  }

  lemma ShownLengths(p: Presented, files: seq<FileDiff>, options: Options, projection: ContentProjection, k: nat)
    requires (forall f :: 0 <= f < |files| ==> files[f].Valid()) && ShownSoFar(p, files, options, projection, k)
    ensures |p.fileRanges| == |p.hunkRanges| == |p.collapsed| == |files| && IndexesGaps(p.gapInfo, p.rows)
    ensures forall i :: 0 <= i < |p.fileOrder| ==> p.fileOrder[i] < |files|
  {
    hide OneShown, IndexesGaps, InTurn;
  }

  lemma SameRowsShown(p: Presented, q: Presented, files: seq<FileDiff>, options: Options,
                      projection: ContentProjection, k: nat)
    requires (forall f :: 0 <= f < |files| ==> files[f].Valid()) && ShownSoFar(p, files, options, projection, k)
    requires q == p.(anchorRows := q.anchorRows, sourceRows := q.sourceRows)
    ensures ShownSoFar(q, files, options, projection, k)
  {
    hide OneShown, IndexesGaps, InTurn;
    InTurnSame(p, q, k);
    forall i | 0 <= i < k
      ensures OneShown(q, files, options, projection, q.fileOrder[i])
    {
      OneSame(p, q, files, options, projection, p.fileOrder[i]);
    }
  }

  lemma OneSame(p: Presented, q: Presented, files: seq<FileDiff>, options: Options, projection: ContentProjection,
                f: nat)
    requires f < |files| && files[f].Valid() && |p.fileRanges| == |p.hunkRanges| == |p.collapsed| == |files|
    requires q == p.(anchorRows := q.anchorRows, sourceRows := q.sourceRows)
    ensures OneShown(p, files, options, projection, f) <==> OneShown(q, files, options, projection, f)
  {
    hide FileShown, HunksShown, ViewOf, ModeOf;
  }

  lemma InTurnSame(p: Presented, q: Presented, k: nat)
    requires k <= |p.fileOrder| && forall i :: 0 <= i < |p.fileOrder| ==> p.fileOrder[i] < |p.fileRanges|
    requires q == p.(anchorRows := q.anchorRows, sourceRows := q.sourceRows)
    ensures InTurn(p, k) <==> InTurn(q, k)
  {
    assert forall i :: 0 <= i <= k ==> EndOf(p, i) == EndOf(q, i);
  }

  lemma NextFileShown(p: Presented, q: Presented, files: seq<FileDiff>, options: Options,
                      projection: ContentProjection, k: nat)
    requires (forall f :: 0 <= f < |files| ==> files[f].Valid()) && ShownSoFar(p, files, options, projection, k)
    requires IsOrder(p.fileOrder, |files|) && k < |p.fileOrder| && q.fileOrder == p.fileOrder
    requires |q.fileRanges| == |q.hunkRanges| == |q.collapsed| == |files|
    requires var f := p.fileOrder[k];
             var view := ViewOf(files, f, options, projection);
             && Appended(p.rows, p.gapInfo, q.rows, q.gapInfo, f, ShownHidden(view, options.includeFileHeaders))
             && (forall side ::
                   LinesOn(q.rows, side) == LinesOn(p.rows, side)
                                            + ShownCells(view, options.includeFileHeaders, side))
             && q.fileRanges == p.fileRanges[f := Range(|p.rows|, |q.rows|)]
             && q.hunkRanges == p.hunkRanges[f := q.hunkRanges[f]] && q.collapsed == p.collapsed[f := q.collapsed[f]]
             && HunksShown(q.rows, q.hunkRanges[f], view)
             && |q.hunkRanges[f]| == (if ModeOf(view, options.includeFileHeaders) == Patch then |files[f].hunks| else 0)
             && (q.collapsed[f] <==> ModeOf(view, options.includeFileHeaders) == Folded)
    ensures ShownSoFar(q, files, options, projection, k + 1)
  {
    hide LinesOn, ShownCells, ShownHidden, HiddenLines, FileShown, HunksShown, SameBelow, IndexesGaps, InTurn;
    var f := p.fileOrder[k];
    var view := ViewOf(files, f, options, projection);
    forall r | 0 <= r < |p.rows|
      ensures p.rows[r].fileIndex != f
    {
      assert p.rows[r].fileIndex in p.fileOrder[..k];
    }
    FileNowShown(p.rows, p.gapInfo, q.rows, q.gapInfo, view, options.includeFileHeaders);
    forall i | 0 <= i < k + 1
      ensures OneShown(q, files, options, projection, q.fileOrder[i])
    {
      if i < k {
        assert OneShown(p, files, options, projection, p.fileOrder[i]);
        OneStaysShown(p, q, files, options, projection, p.fileOrder[i], f,
                      ShownHidden(view, options.includeFileHeaders));
      }
    }
    AppendedIndexes(p.rows, p.gapInfo, q.rows, q.gapInfo, f, ShownHidden(view, options.includeFileHeaders));
    NextInTurn(p, q, k, f);
    OnlyOrderedFiles(p.rows, q.rows, p.fileOrder, k);
  }

  lemma OneStaysShown(p: Presented, q: Presented, files: seq<FileDiff>, options: Options,
                      projection: ContentProjection, f: nat, other: nat, hidden: nat)
    requires f < |files| && files[f].Valid() && f != other
    requires |p.fileRanges| == |p.hunkRanges| == |p.collapsed| == |q.fileRanges| == |q.hunkRanges| == |q.collapsed|
             == |files|
    requires OneShown(p, files, options, projection, f) && Appended(p.rows, p.gapInfo, q.rows, q.gapInfo, other, hidden)
    requires q.fileRanges[f] == p.fileRanges[f] && q.hunkRanges[f] == p.hunkRanges[f]
             && q.collapsed[f] == p.collapsed[f]
    ensures OneShown(q, files, options, projection, f)
  {
    hide FileShown, HunksShown, Appended;
    var view := ViewOf(files, f, options, projection);
    AppendedIndexes(p.rows, p.gapInfo, q.rows, q.gapInfo, other, hidden);
    FileStaysShown(p.rows, p.gapInfo, q.rows, q.gapInfo, p.fileRanges[f], view, options.includeFileHeaders, other,
                   hidden);
    HunksStayShown(p.rows, q.rows, p.hunkRanges[f], view);
  }

  lemma NextInTurn(p: Presented, q: Presented, k: nat, f: nat)
    requires k < |p.fileOrder| && q.fileOrder == p.fileOrder && p.fileOrder[k] == f
    requires forall i :: 0 <= i < |p.fileOrder| ==> p.fileOrder[i] < |p.fileRanges|
    requires forall i :: 0 <= i < k ==> p.fileOrder[i] != f
    requires InTurn(p, k) && q.fileRanges == p.fileRanges[f := Range(|p.rows|, |q.rows|)]
    ensures InTurn(q, k + 1)
  {
    forall i | 0 <= i < k + 1
      ensures q.fileRanges[q.fileOrder[i]].start == EndOf(q, i)
    {
      if i < k {
        assert p.fileRanges[p.fileOrder[i]].start == EndOf(p, i);
      }
    }
  }

  lemma OnlyOrderedFiles(rows: seq<Row>, after: seq<Row>, order: seq<nat>, k: nat)
    requires k < |order| && rows <= after && RowsOfFile(after, |rows|, order[k])
    requires forall r :: 0 <= r < |rows| ==> rows[r].fileIndex in order[..k]
    ensures forall r :: 0 <= r < |after| ==> after[r].fileIndex in order[..k + 1]
  {
    assert order[..k + 1] == order[..k] + [order[k]];
    forall r | 0 <= r < |after|
      ensures after[r].fileIndex in order[..k + 1]
    {
      if r < |rows| {
        assert after[r] == rows[r];
      }
    }
  }

  // ---- looking rows up ---------------------------------------------------

  datatype SourceLocation = SourceLocation(path: RepoPath, side: Side, number: nat)

  /** The row showing a line, through an index. */
  function LookUp(p: Presented, index: map<LineKey, nat>, files: seq<FileDiff>, path: RepoPath, side: Side,
                  number: nat): Option<nat>
  {
    var file := FileIndex(files, path);
    if file.None? then None
    else
      var key := LineKey(file.value, side, number);
      if key in index then Some(index[key]) else None
  }

  function RowShowingSource(p: Presented, files: seq<FileDiff>, location: SourceLocation): Option<nat> {
    LookUp(p, p.sourceRows, files, location.path, location.side, location.number)
  }

  /** The row showing a patch line, named by its number on a side. */
  function RowShowingAnchor(p: Presented, files: seq<FileDiff>, path: RepoPath, side: Side, number: nat): Option<nat> {
    LookUp(p, p.anchorRows, files, path, side, number)
  }

  /** A row shows a line of the first file with a path. */
  ghost predicate RowShows(p: Presented, files: seq<FileDiff>, i: nat, path: RepoPath, side: Side, number: nat,
                           ofPatch: bool)
  {
    && i < |p.rows| && FileIndex(files, path).Some?
    && Shows(p.rows[i], LineKey(FileIndex(files, path).value, side, number), ofPatch)
  }

  /** An index finds the last row a scan over all rows finds, and nothing when the scan finds none. */
  lemma LookUpIsScan(p: Presented, files: seq<FileDiff>, index: map<LineKey, nat>, path: RepoPath, side: Side,
                     number: nat, ofPatch: bool)
    requires FindsLast(index, p.rows, ofPatch)
    ensures match LookUp(p, index, files, path, side, number)
            case Some(i) =>
              && RowShows(p, files, i, path, side, number, ofPatch)
              && forall j: nat :: RowShows(p, files, j, path, side, number, ofPatch) ==> j <= i
            case None => forall j: nat :: !RowShows(p, files, j, path, side, number, ofPatch)
  {
  }

  lemma RowInListing(rows: seq<Row>, side: Side, i: nat)
    requires i < |rows|
    ensures LinesOn(rows, side) == LinesOn(rows[..i], side) + rows[i].Lines(side) + LinesOn(rows[i + 1..], side)
  {
    assert rows == rows[..i] + [rows[i]] + rows[i + 1..];
    LinesOnConcat(rows[..i] + [rows[i]], rows[i + 1..], side);
    LinesOnPush(rows[..i], rows[i], side);
  }

  /** In an ascending listing a later row shows a greater number. */
  lemma LaterRowsShowMore(rows: seq<Row>, side: Side, i: nat, j: nat, early: Cell, late: Cell)
    requires FileRows.Increasing(Numbers(LinesOn(rows, side))) && i < j < |rows|
    requires rows[i].Lines(side) == [early] && rows[j].Lines(side) == [late]
    requires early.sourceLine.Some? && late.sourceLine.Some?
    ensures early.sourceLine.value.number < late.sourceLine.value.number
  {
    hide LinesOn, Row.Lines;
    RowInListing(rows, side, j);
    RowInListing(rows[..j], side, i);
    var before := LinesOn(rows[..j], side);
    var at := |LinesOn(rows[..j][..i], side)|;
    var all := LinesOn(rows, side);
    assert all[at] == before[at] == early;
    assert all[|before|] == late;
    assert Numbers(all)[at] < Numbers(all)[|before|];
  }

  /** The listing of a file shown in any way at all ascends, when its hunks are in order. */
  lemma ShownAscends(view: FileView, includeFileHeaders: bool, side: Side)
    requires view.Valid() && AllSound(view.file.hunks, side) && Ordered(view.file.hunks, side)
    ensures FileRows.Increasing(Numbers(ShownCells(view, includeFileHeaders, side)))
  {
    hide OnSide, FileView.Cells, AllSound, Ordered, SourceCells, Numbers;
    NoNumbers();
    FileListsNoLineTwice(view, side);
    SourceOnSide(view.file, view.Count(SourceSide(view.file)));
    SpanAscends(1, view.Count(SourceSide(view.file)) + 1);
    SourceCellsMissing(view);
  }

  lemma SourceCellsMissing(view: FileView)
    requires view.Valid()
    ensures view.file.Source(SourceSide(view.file)).Missing? ==>
            SourceCells(view.file, view.Count(SourceSide(view.file))) == []
  {
  }

  /** A lookup finds the one row that shows the line: no file with hunks in order shows a line twice. */
  lemma LookUpFindsTheOnlyRow(p: Presented, files: seq<FileDiff>, options: Options, projection: ContentProjection,
                              index: map<LineKey, nat>, path: RepoPath, side: Side, number: nat, ofPatch: bool, i: nat)
    requires Presents(p, files, options, projection) && FindsLast(index, p.rows, ofPatch)
    requires FileIndex(files, path).Some?
    requires var hunks := files[FileIndex(files, path).value].hunks; AllSound(hunks, side) && Ordered(hunks, side)
    ensures LookUp(p, index, files, path, side, number) == Some(i) <==>
            RowShows(p, files, i, path, side, number, ofPatch)
  {
    hide Presents, FindsLast, AllSound, Ordered, Shows;
    LookUpIsScan(p, files, index, path, side, number, ofPatch);
    var found := LookUp(p, index, files, path, side, number);
    if RowShows(p, files, i, path, side, number, ofPatch) && found != Some(i) {
      TwoRowsCannotShow(p, files, options, projection, path, side, number, ofPatch, i, found.value);
    }
  }

  lemma TwoRowsCannotShow(p: Presented, files: seq<FileDiff>, options: Options, projection: ContentProjection,
                          path: RepoPath, side: Side, number: nat, ofPatch: bool, i: nat, j: nat)
    requires Presents(p, files, options, projection) && i < j
    requires FileIndex(files, path).Some?
    requires var hunks := files[FileIndex(files, path).value].hunks; AllSound(hunks, side) && Ordered(hunks, side)
    requires RowShows(p, files, i, path, side, number, ofPatch)
    ensures !RowShows(p, files, j, path, side, number, ofPatch)
  {
    hide AllSound, Ordered, ShownCells, ShownHidden, LinesOn, FindsLast, IndexesGaps, InTurn, FileRows.Increasing;
    if RowShows(p, files, j, path, side, number, ofPatch) {
      var f := FileIndex(files, path).value;
      var view := ViewOf(files, f, options, projection);
      var k :| 0 <= k < |p.fileOrder| && p.fileOrder[k] == f;
      assert OneShown(p, files, options, projection, p.fileOrder[k]);
      var range := p.fileRanges[f];
      var rows := p.rows[range.start..range.end];
      ShownAscends(view, options.includeFileHeaders, side);
      assert rows[i - range.start] == p.rows[i] && rows[j - range.start] == p.rows[j];
      LaterRowsShowMore(rows, side, i - range.start, j - range.start, p.rows[i].CellOn(side).value,
                        p.rows[j].CellOn(side).value);
    }
  }

  // ---- what can be found -------------------------------------------------

  lemma {:induction false} ListedInSomeRow(rows: seq<Row>, side: Side, cell: Cell) returns (i: nat)
    requires cell in LinesOn(rows, side)
    ensures i < |rows| && rows[i].Lines(side) == [cell]
  {
    i := |rows| - 1;
    if cell !in rows[i].Lines(side) {
      i := ListedInSomeRow(rows[..i], side, cell);
    }
  }

  /** A cell listed in some stretch of a file's rows is found by looking its line up. */
  lemma ListedIsFound(p: Presented, files: seq<FileDiff>, index: map<LineKey, nat>, ofPatch: bool, path: RepoPath,
                      range: Range, side: Side, cell: Cell)
    requires FindsLast(index, p.rows, ofPatch) && FileIndex(files, path).Some? && range.start <= range.end <= |p.rows|
    requires forall i :: range.start <= i < range.end ==> p.rows[i].fileIndex == FileIndex(files, path).value
    requires cell in LinesOn(p.rows[range.start..range.end], side)
    requires cell.sourceLine.Some? && cell.sourceLine.value.side == side && (ofPatch ==> cell.patchSource.Some?)
    ensures LookUp(p, index, files, path, side, cell.sourceLine.value.number).Some?
    ensures exists i: nat :: i < |p.rows| && p.rows[i].CellOn(side) == Some(cell)
                             && RowShows(p, files, i, path, side, cell.sourceLine.value.number, ofPatch)
  {
    var at := ListedInSomeRow(p.rows[range.start..range.end], side, cell);
    var i := range.start + at;
    assert p.rows[i] == p.rows[range.start..range.end][at];
    assert p.rows[i].CellOn(side) == Some(cell);
    assert RowShows(p, files, i, path, side, cell.sourceLine.value.number, ofPatch);
  }

  lemma FileIsShown(p: Presented, files: seq<FileDiff>, options: Options, projection: ContentProjection, f: nat)
    requires Presents(p, files, options, projection) && f < |files|
    ensures |p.fileRanges| == |p.hunkRanges| == |p.collapsed| == |files| && files[f].Valid()
    ensures OneShown(p, files, options, projection, f)
  {
    hide IndexesGaps, FileShown, HunksShown, FindsLast, InTurn, OneShown;
    assert f in p.fileOrder;
    var k :| 0 <= k < |p.fileOrder| && p.fileOrder[k] == f;
    assert OneShown(p, files, options, projection, p.fileOrder[k]);
  }

  /** Every line of a file shown in full can be found, on each side its layout needs. */
  lemma EveryLineIsFound(p: Presented, files: seq<FileDiff>, options: Options, projection: ContentProjection,
                         location: SourceLocation)
    requires Presents(p, files, options, projection) && FileIndex(files, location.path).Some?
    requires var view := ViewOf(files, FileIndex(files, location.path).value, options, projection);
             && ModeOf(view, options.includeFileHeaders) == Patch && view.Gap(0).Full() && Fits(view, location.side)
             && 1 <= location.number <= view.Count(location.side)
    ensures RowShowingSource(p, files, location).Some?
  {
    hide ShownSoFar, IsOrder, FindsLast, LinesOn, Fits, FileView.Cells, HunksShown;
    var f := FileIndex(files, location.path).value;
    var view := ViewOf(files, f, options, projection);
    FileIsShown(p, files, options, projection, f);
    FullFileListsEveryLine(view, location.side);
    var cells := view.Cells(location.side);
    var cell := cells[location.number - 1];
    assert Numbers(cells)[location.number - 1] == location.number;
    assert cell in cells;
    ListedIsFound(p, files, p.sourceRows, false, location.path, p.fileRanges[f], location.side, cell);
  }

  lemma {:induction false} PatchCellListed(hunkIndex: nat, lines: seq<PatchLine>, k: nat, layout: Layout, side: Side,
                                           i: nat)
    requires i < k <= |lines| && Listed(layout, lines[i], side)
    ensures Within(Span(0, k), lines)
    ensures CodeCell(side, hunkIndex, i, lines[i]) in PatchCells(hunkIndex, lines, Span(0, k), layout, side)
  {
    AllWithin(lines);
    NextPatchCell(hunkIndex, lines, k - 1, layout);
    if i < k - 1 {
      PatchCellListed(hunkIndex, lines, k - 1, layout, side, i);
    }
  }

  /** The anchor of a patch line the layout lists leads back to the one row whose cell is that line. */
  lemma AnchorFindsItsLine(p: Presented, files: seq<FileDiff>, options: Options, projection: ContentProjection,
                           path: RepoPath, h: nat, l: nat, side: Side)
    requires Presents(p, files, options, projection) && FileIndex(files, path).Some?
    requires var f := FileIndex(files, path).value;
             && ModeOf(ViewOf(files, f, options, projection), options.includeFileHeaders) == Patch
             && AllSound(files[f].hunks, side) && Ordered(files[f].hunks, side)
             && h < |files[f].hunks| && l < |files[f].hunks[h].lines|
             && Listed(ViewOf(files, f, options, projection).layout, files[f].hunks[h].lines[l], side)
    ensures var line := files[FileIndex(files, path).value].hunks[h].lines[l];
            var found := RowShowingAnchor(p, files, path, side, CodeNumber(line, side).value);
            found.Some? && found.value < |p.rows|
                && p.rows[found.value].CellOn(side) == Some(CodeCell(side, h, l, line))
  {
    hide ShownSoFar, IsOrder, FindsLast, LinesOn, AllSound, Ordered, ShownCells, ShownHidden, HiddenLines, Listed;
    var f := FileIndex(files, path).value;
    var view := ViewOf(files, f, options, projection);
    var lines := files[f].hunks[h].lines;
    var cell := CodeCell(side, h, l, lines[l]);
    ListedHasNumber(view.layout, lines[l], side);
    FileIsShown(p, files, options, projection, f);
    assert HunkShown(p.rows, p.hunkRanges[f][h], view, h);
    PatchCellListed(h, lines, |lines|, view.layout, side, l);
    var range := p.hunkRanges[f][h];
    HunkRowsAreTheFiles(p.rows, range, view, h);
    ListedIsFound(p, files, p.anchorRows, true, path, range, side, cell);
    var i: nat :| i < |p.rows| && p.rows[i].CellOn(side) == Some(cell)
                  && RowShows(p, files, i, path, side, cell.sourceLine.value.number, true);
    LookUpFindsTheOnlyRow(p, files, options, projection, p.anchorRows, path, side, cell.sourceLine.value.number, true,
                          i);
  }

  lemma ListedHasNumber(layout: Layout, line: PatchLine, side: Side)
    requires Listed(layout, line, side)
    ensures CodeNumber(line, side).Some?
  {
  }

  lemma HunkRowsAreTheFiles(rows: seq<Row>, range: Range, view: FileView, h: nat)
    requires h < |view.file.hunks| && HunkShown(rows, range, view, h)
    ensures forall i :: range.start <= i < range.end ==> rows[i].fileIndex == view.fileIndex
  {
    hide LinesOn, PatchCells;
    HunkRowKinds(rows[range.start..range.end], 0, view.fileIndex, h, view.file.hunks[h].lines);
    forall i | range.start <= i < range.end
      ensures rows[i].fileIndex == view.fileIndex
    {
      assert rows[i] == rows[range.start..range.end][i - range.start];
    }
  }
}
