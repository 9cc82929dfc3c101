/**
 Rows for the unchanged lines between hunks: those revealed after the hunk above and before the hunk
 below, and one row standing for the rest.
 */
module GapRows {
  import opened Bytes
  import opened SourceDocuments
  import opened Hunks
  import opened Documents
  import opened Rows

  datatype GapExpansion = GapExpansion(prefix: nat, suffix: nat)

  datatype ContentProjection = ContentProjection(sourceView: Option<RepoPath>, expansions: map<GapId, GapExpansion>,
                                                 fullFiles: set<RepoPath>, collapsedFiles: set<RepoPath>)

  /** The sides a gap needs the sources of. */
  predicate Required(layout: Layout, status: FileStatus, side: Side) {
    if status == Deleted then side == Old
    else layout == Split || side == New
  }

  /** One gap of one file and how it is to be shown. */
  datatype GapView = GapView(fileIndex: nat, gapIndex: nat, file: FileDiff, gap: GapInterval, layout: Layout,
                             projection: ContentProjection)
  {
    function Id(): GapId { GapId(fileIndex, gapIndex) }

    function Expansion(): GapExpansion {
      if Id() in projection.expansions then projection.expansions[Id()] else GapExpansion(0, 0)
    }

    function Total(): nat { gap.Total() }

    predicate Full() { file.path in projection.fullFiles }

    predicate Loaded() {
      && (Required(layout, file.status, Old) ==> file.oldSource.Captured?)
      && (Required(layout, file.status, New) ==> file.newSource.Captured?)
    }

    function Prefix(): (r: nat)
      ensures r <= Total()
    {
      if Full() then Total() else Min(Expansion().prefix, Total())
    }

    function Suffix(): (r: nat)
      ensures r <= Total()
    {
      if Full() then Total() else Min(Expansion().suffix, Monus(Total(), Prefix()))
    }

    function Hidden(): nat {
      if Loaded() then Monus(Total(), Prefix() + Suffix()) else Total()
    }

    function SuffixStart(): (r: nat)
      ensures Prefix() <= r <= Total()
    {
      Max(Monus(Total(), Suffix()), Prefix())
    }

    /** A gap of no lines beside hunks takes no rows at all. */
    predicate Skipped() { Total() == 0 && file.hunks != [] }

    predicate HasGapRow() { !Skipped() && (Hidden() != 0 || !Loaded()) }

    /** The first source the gap needs and lacks. */
    function WhyUnavailable(): Option<Unavailable> {
      if Required(layout, file.status, Old) && file.oldSource.Missing? then Some(file.oldSource.reason)
      else if Required(layout, file.status, New) && file.newSource.Missing? then Some(file.newSource.reason)
      else None
    }

    /** Whether the layout puts a side's unchanged lines in a row. */
    predicate Displays(side: Side) {
      match layout
      case Split => true
      case Unified => side == if file.status == Deleted then Old else New
    }

    ghost predicate Valid() { file.Valid() }

    /** The cell for the line `offset` lines into the gap. */
    function ContextCell(side: Side, offset: nat): (r: seq<Cell>)
      requires Valid()
      ensures |r| <= 1 && OnSide(r, side)
    {
      var number := gap.On(side).start + offset;
      var source := file.Source(side);
      if !Displays(side) || number >= gap.On(side).end || source.Missing? then []
      else
        var text := source.document.Line(number);
        if text.None? then []
        else [Cell(None, Some(SourceLineRef(side, number)), Verbatim(text.value))]
    }

    ghost function ContextCells(side: Side, from: nat, end: nat): seq<Cell>
      requires Valid()
      decreases end
    {
      if end <= from then [] else ContextCells(side, from, end - 1) + ContextCell(side, end - 1)
    }

    /** What the gap lists of a side: its first and its last lines, as far as they are revealed. */
    ghost function Revealed(side: Side): seq<Cell>
      requires Valid()
    {
      if Skipped() || !Loaded() then []
      else ContextCells(side, 0, Prefix()) + ContextCells(side, SuffixStart(), Total())
    }

    /** The row for one offset into the gap, unless neither side has a line there. */
    function ExpandedRow(offset: nat): (r: seq<Row>)
      requires Valid()
      ensures |r| <= 1 && forall row :: row in r ==> IsExpanded(row, offset)
      ensures r == [] ==> ContextCell(Old, offset) == [] && ContextCell(New, offset) == []
    {
      hide GapView.ContextCell;
      var left, right := ContextCell(Old, offset), ContextCell(New, offset);
      if left == [] && right == [] then []
      else [Row(ExpandedContext, fileIndex, None, if left == [] then None else Some(left[0]),
                if right == [] then None else Some(right[0]))]
    }

    /** An expanded row puts the lines at one offset into the gap beside each other. */
    ghost predicate IsExpanded(row: Row, offset: nat)
      requires Valid()
    {
      && row.kind == ExpandedContext && row.fileIndex == fileIndex && row.hunkIndex == None
      && row.Lines(Old) == ContextCell(Old, offset) && row.Lines(New) == ContextCell(New, offset)
      && (row.left.Some? || row.right.Some?)
    }

    ghost predicate IsGapRow(row: Row) {
      row == LabelRow(ExpandGap, fileIndex, None)
    }

    ghost predicate FromGap(row: Row)
      requires Valid()
    {
      IsGapRow(row) || exists offset: nat :: IsExpanded(row, offset)
    }
  }

  method AppendExpandedRows(rows: seq<Row>, view: GapView, from: nat, end: nat) returns (after: seq<Row>)
    requires view.Valid() && from <= end
    ensures rows <= after
    ensures forall side :: LinesOn(after, side) == LinesOn(rows, side) + view.ContextCells(side, from, end)
    ensures forall i :: |rows| <= i < |after| ==> after[i].kind == ExpandedContext && view.FromGap(after[i])
  {
    hide LinesOn, GapView.ContextCell, GapView.IsExpanded, GapView.IsGapRow;
    after := rows;
    for offset := from to end
      invariant rows <= after
      invariant forall side :: LinesOn(after, side) == LinesOn(rows, side) + view.ContextCells(side, from, offset)
      invariant forall i :: |rows| <= i < |after| ==> after[i].kind == ExpandedContext && view.FromGap(after[i])
    {
      ghost var before := after;
      var expanded := view.ExpandedRow(offset);
      after := after + expanded;
      forall side
        ensures LinesOn(after, side) == LinesOn(rows, side) + view.ContextCells(side, from, offset + 1)
      {
        ExpandedLines(view, offset, side);
        LinesOnConcat(before, expanded, side);
      }
      ExpandedKind(view, offset);
      assert forall row :: row in expanded ==> row.kind == ExpandedContext && view.FromGap(row);
    }
  }

  lemma ExpandedLines(view: GapView, offset: nat, side: Side)
    requires view.Valid()
    ensures LinesOn(view.ExpandedRow(offset), side) == view.ContextCell(side, offset)
  {
    hide GapView.ExpandedRow, GapView.ContextCell;
    var rows := view.ExpandedRow(offset);
    if rows != [] {
      assert view.IsExpanded(rows[0], offset);
      assert rows == [rows[0]];
      LinesOnOne(rows[0]);
    }
  }

  lemma ExpandedKind(view: GapView, offset: nat)
    requires view.Valid()
    ensures forall row :: row in view.ExpandedRow(offset) ==> row.kind == ExpandedContext && view.FromGap(row)
  {
    hide GapView.ExpandedRow;
    forall row | row in view.ExpandedRow(offset)
      ensures row.kind == ExpandedContext && view.FromGap(row)
    {
      assert view.IsExpanded(row, offset);
    }
  }

  /** Shows one gap. The gap row, if there is one, comes between the two revealed parts. */
  method AppendGapProjection(rows: seq<Row>, info: map<nat, GapInfo>, view: GapView)
    returns (after: seq<Row>, afterInfo: map<nat, GapInfo>, ghost gapRow: Option<nat>)
    requires view.Valid() && IndexesGaps(info, rows)
    ensures rows <= after && IndexesGaps(afterInfo, after)
    ensures forall side :: LinesOn(after, side) == LinesOn(rows, side) + view.Revealed(side)
    ensures forall i :: |rows| <= i < |after| ==> view.FromGap(after[i])
    ensures gapRow.Some? <==> view.HasGapRow()
    ensures gapRow.None? ==> afterInfo == info
    ensures gapRow.Some? ==>
              && |rows| <= gapRow.value < |after|
              && afterInfo == info[gapRow.value := GapInfo(view.Id(), view.Hidden(), view.WhyUnavailable())]
              && forall side :: LinesOn(after[..gapRow.value], side)
                             == LinesOn(rows, side) + if view.Loaded() then view.ContextCells(side, 0, view.Prefix())
                                 else []
  {
    hide LinesOn, GapView.ContextCells, GapView.FromGap, GapView.Prefix, GapView.Suffix, GapView.SuffixStart,
         GapView.Hidden;
    after, afterInfo, gapRow := rows, info, None;
    if view.Skipped() {
      return;
    }
    if view.Loaded() {
      after := AppendExpandedRows(after, view, 0, view.Prefix());
    }
    if view.Hidden() != 0 || !view.Loaded() {
      gapRow := Some(|after|);
      ghost var before := after;
      afterInfo := afterInfo[|after| := GapInfo(view.Id(), view.Hidden(), view.WhyUnavailable())];
      after := after + [LabelRow(ExpandGap, view.fileIndex, None)];
      GapRowListsNothing(before, view);
      assert after[..|before|] == before;
    }
    if view.Loaded() {
      ghost var middle := after;
      after := AppendExpandedRows(after, view, view.SuffixStart(), view.Total());
      if gapRow.Some? {
        assert after[..gapRow.value] == middle[..gapRow.value];
      }
    }
  }

  lemma GapRowListsNothing(rows: seq<Row>, view: GapView)
    requires view.Valid()
    ensures forall side :: LinesOn(rows + [LabelRow(ExpandGap, view.fileIndex, None)], side) == LinesOn(rows, side)
    ensures view.FromGap(LabelRow(ExpandGap, view.fileIndex, None))
  {
    hide LinesOn, GapView.IsExpanded;
    forall side
      ensures LinesOn(rows + [LabelRow(ExpandGap, view.fileIndex, None)], side) == LinesOn(rows, side)
    {
      LinesOnPush(rows, LabelRow(ExpandGap, view.fileIndex, None), side);
    }
  }

  // ---- which lines a gap lists -------------------------------------------

  /** The source has every line the gap claims. */
  ghost predicate Covers(view: GapView, side: Side) {
    && view.Displays(side) && view.file.Source(side).Captured?
    && 1 <= view.gap.On(side).start <= view.gap.On(side).end <= view.file.Source(side).LineCount() + 1
  }

  /** Clips an offset to the lines a side of the gap has. */
  function LineAfter(view: GapView, side: Side, offset: nat): nat {
    Min(view.gap.On(side).start + offset, view.gap.On(side).end)
  }

  lemma {:induction false} ContextCellsAreASpan(view: GapView, side: Side, from: nat, end: nat)
    requires view.Valid() && Covers(view, side) && from <= end
    ensures OnSide(view.ContextCells(side, from, end), side)
    ensures Numbers(view.ContextCells(side, from, end)) == Span(LineAfter(view, side, from), LineAfter(view, side, end))
    decreases end
  {
    hide Numbers, OnSide, Span, GapView.ContextCell, Covers, LineAfter, GapView.Valid;
    if from == end {
      NoNumbers();
      NoSpan(LineAfter(view, side, from));
    } else {
      LinesInOrder(view, side, from, end);
      ContextCellsAreASpan(view, side, from, end - 1);
      var more := view.ContextCell(side, end - 1);
      CoveredCell(view, side, end - 1);
      OnSideConcat(view.ContextCells(side, from, end - 1), more, side);
      SpanJoin(LineAfter(view, side, from), LineAfter(view, side, end - 1), LineAfter(view, side, end));
    }
  }

  lemma LinesInOrder(view: GapView, side: Side, from: nat, end: nat)
    requires from < end
    ensures LineAfter(view, side, from) <= LineAfter(view, side, end - 1) <= LineAfter(view, side, end)
  {
  }

  lemma CoveredCell(view: GapView, side: Side, offset: nat)
    requires view.Valid() && Covers(view, side)
    ensures Numbers(view.ContextCell(side, offset))
         == Span(LineAfter(view, side, offset), LineAfter(view, side, offset + 1))
  {
    hide TextLines, LineStarts, SourceDocument.LineSpan, StripCR, SourceDocument.Line;
    LineIsPiece(view.file.Source(side).document.text, 0);
  }

  lemma GapAddsUp(view: GapView)
    requires view.Loaded()
    ensures view.Prefix() + view.Hidden() == view.SuffixStart() <= view.Total()
    ensures !view.HasGapRow() ==> view.Hidden() == 0
    ensures view.Skipped() ==> view.Total() == 0
  {
  }

  /** Every line the gap row stands for is a line of this side. */
  predicate HidesOwnLines(view: GapView, side: Side) {
    view.Hidden() == 0 || view.SuffixStart() <= view.gap.Length(side)
  }

  /** A gap lists its first lines and its last. The row between stands for exactly the others if and only
      if this side has all the lines it stands for; otherwise it claims too many. */
  lemma GapListsAllButHidden(view: GapView, side: Side)
    requires view.Valid() && Covers(view, side) && view.Loaded()
    ensures OnSide(view.Revealed(side), side)
    ensures Numbers(view.Revealed(side))
         == Span(view.gap.On(side).start, LineAfter(view, side, view.Prefix()))
            + Span(LineAfter(view, side, view.SuffixStart()), view.gap.On(side).end)
    ensures var hidden := if view.HasGapRow() then view.Hidden() else 0;
            && |view.Revealed(side)| + hidden >= view.gap.Length(side)
            && (|view.Revealed(side)| + hidden == view.gap.Length(side) <==> HidesOwnLines(view, side))
  {
    hide GapView.ContextCells, Numbers, OnSide, Span, LineAfter, Covers;
    hide GapView.Prefix, GapView.SuffixStart, GapView.Hidden, GapView.HasGapRow, GapView.Suffix;
    GapAddsUp(view);
    WholeGap(view, side);
    if view.Skipped() {
      NoNumbers();
      NoSpan(view.gap.On(side).start);
      NothingToHide(view, side);
    } else {
      ContextCellsAreASpan(view, side, 0, view.Prefix());
      ContextCellsAreASpan(view, side, view.SuffixStart(), view.Total());
      OnSideConcat(view.ContextCells(side, 0, view.Prefix()),
                   view.ContextCells(side, view.SuffixStart(), view.Total()), side);
      OutsideTheHole(view, side);
    }
  }

  lemma NothingToHide(view: GapView, side: Side)
    requires view.Total() == 0 && Covers(view, side)
    ensures view.Prefix() == view.SuffixStart() == view.Hidden() == 0 && view.gap.Length(side) == 0
    ensures LineAfter(view, side, 0) == view.gap.On(side).start == view.gap.On(side).end
  {
  }

  /** How many lines of a side lie before and after the hidden ones. */
  lemma OutsideTheHole(view: GapView, side: Side)
    requires Covers(view, side) && view.Prefix() + view.Hidden() == view.SuffixStart() <= view.Total()
    ensures var first, last, a, b := view.gap.On(side).start, view.gap.On(side).end,
                                     LineAfter(view, side, view.Prefix()), LineAfter(view, side, view.SuffixStart());
            var outside := |Span(first, a) + Span(b, last)|;
            && outside + view.Hidden() >= view.gap.Length(side)
            && (outside + view.Hidden() == view.gap.Length(side) <==> HidesOwnLines(view, side))
  {
    hide GapView.Prefix, GapView.SuffixStart, GapView.Hidden, GapView.Suffix;
  }

  lemma NoSpan(n: nat)
    ensures Span(n, n) == []
  {
  }

  lemma NoNumbers()
    ensures Numbers([]) == []
    ensures forall side :: OnSide([], side)
  {
  }

  /** A file shown in full hides nothing. */
  lemma FullGapHidesNothing(view: GapView, side: Side)
    requires view.Valid() && Covers(view, side) && view.Loaded() && view.Full()
    ensures OnSide(view.Revealed(side), side) && !view.HasGapRow() && view.Hidden() == 0
    ensures Numbers(view.Revealed(side)) == Span(view.gap.On(side).start, view.gap.On(side).end)
  {
    hide Numbers, OnSide, Span, LineAfter, GapView.ContextCell;
    WholeGap(view, side);
    if view.Skipped() {
      NoNumbers();
      NoSpan(view.gap.On(side).start);
    } else {
      ContextCellsAreASpan(view, side, 0, view.Total());
      assert view.ContextCells(side, view.Total(), view.Total()) == [];
      assert view.Revealed(side) == view.ContextCells(side, 0, view.Total());
    }
  }

  lemma WholeGap(view: GapView, side: Side)
    requires Covers(view, side)
    ensures LineAfter(view, side, 0) == view.gap.On(side).start
            && LineAfter(view, side, view.Total()) == view.gap.On(side).end
    ensures view.Total() == 0 ==> view.gap.On(side).start == view.gap.On(side).end
  {
  }
}
