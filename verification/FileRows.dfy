/**
 The rows of one file: gaps and hunks in turn, and which of the file's lines they list.
 */
module FileRows {
  import opened Bytes
  import opened SourceDocuments
  import opened Hunks
  import opened Documents
  import opened Rows
  import opened GapRows
  import opened HunkRows

  /** One file as it is to be shown, with the layout its status allows. */
  datatype FileView = FileView(fileIndex: nat, file: FileDiff, layout: Layout, projection: ContentProjection)
  {
    ghost predicate Valid() { file.Valid() }

    function Count(side: Side): nat { file.Source(side).LineCount() }

    function GapInterval(k: nat): GapInterval
      requires k <= |file.hunks|
    {
      Hunks.GapInterval(GapAt(file.hunks, k, Count(Old), Old), GapAt(file.hunks, k, Count(New), New))
    }

    function Gap(k: nat): GapView
      requires k <= |file.hunks|
    {
      GapView(fileIndex, k, file, GapInterval(k), layout, projection)
    }

    ghost function GapCells(k: nat, side: Side): seq<Cell>
      requires Valid() && k <= |file.hunks|
    {
      Gap(k).Revealed(side)
    }

    ghost function HunkCells(k: nat, side: Side): seq<Cell>
      requires k < |file.hunks|
    {
      AllWithin(file.hunks[k].lines);
      PatchCells(k, file.hunks[k].lines, Span(0, |file.hunks[k].lines|), layout, side)
    }

    /** What the first `k` gaps and hunks list on a side. */
    ghost function CellsBefore(k: nat, side: Side): seq<Cell>
      requires Valid() && k <= |file.hunks|
    {
      if k == 0 then [] else CellsBefore(k - 1, side) + GapCells(k - 1, side) + HunkCells(k - 1, side)
    }

    ghost function Cells(side: Side): seq<Cell>
      requires Valid()
    {
      CellsBefore(|file.hunks|, side) + GapCells(|file.hunks|, side)
    }

    /** The lines that the gap rows of the first `k` gaps stand for. */
    ghost function HiddenBefore(k: nat): nat
      requires k <= |file.hunks| + 1
    {
      if k == 0 then 0 else HiddenBefore(k - 1) + if Gap(k - 1).HasGapRow() then Gap(k - 1).Hidden() else 0
    }
  }

  lemma AllWithin(lines: seq<PatchLine>)
    ensures Within(Span(0, |lines|), lines)
  {
  }

  // ---- which lines a hunk lists ------------------------------------------

  /** The layout lists every line of a side. */
  ghost predicate ListsAll(lines: seq<PatchLine>, layout: Layout, side: Side) {
    forall i :: 0 <= i < |lines| ==> (Listed(layout, lines[i], side) <==> lines[i].Number(side).Some?)
  }

  lemma {:induction false} NoneOnSide(lines: seq<PatchLine>, side: Side, i: nat)
    requires CountOn(lines, side) == 0 && i < |lines|
    ensures !lines[i].kind.On(side)
  {
    if i < |lines| - 1 {
      NoneOnSide(lines[..|lines| - 1], side, i);
    }
  }

  /** Two columns list each side in full; one column lists the new side, or the old side of a hunk
      with no new lines. */
  lemma SoundListsAll(hunk: Hunk, layout: Layout, side: Side)
    requires Sound(hunk, side)
    requires layout == Unified && side == Old ==> Sound(hunk, New) && hunk.newCount == 0
    ensures ListsAll(hunk.lines, layout, side)
  {
    var lines := hunk.lines;
    forall i | 0 <= i < |lines|
      ensures Listed(layout, lines[i], side) <==> lines[i].Number(side).Some?
    {
      assert lines[i].Number(side) == NumberAt(lines, i, side, hunk.Start(side));
      if layout == Unified && side == Old {
        NoneOnSide(lines, New, i);
      }
    }
  }

  lemma {:induction false} ListedNumbers(hunkIndex: nat, lines: seq<PatchLine>, k: nat, layout: Layout, side: Side)
    requires ListsAll(lines, layout, side) && k <= |lines|
    ensures Within(Span(0, k), lines)
    ensures OnSide(PatchCells(hunkIndex, lines, Span(0, k), layout, side), side)
    ensures Numbers(PatchCells(hunkIndex, lines, Span(0, k), layout, side)) == NumbersOn(lines[..k], side)
  {
    if k == 0 {
    } else {
      hide ListsAll, NumbersOn;
      ListedNumbers(hunkIndex, lines, k - 1, layout, side);
      NextPatchCell(hunkIndex, lines, k - 1, layout);
      var more := if Listed(layout, lines[k - 1], side) then [CodeCell(side, hunkIndex, k - 1, lines[k - 1])] else [];
      NextNumber(hunkIndex, lines, k - 1, layout, side);
      OnSideConcat(PatchCells(hunkIndex, lines, Span(0, k - 1), layout, side), more, side);
    }
  }

  lemma NextNumber(hunkIndex: nat, lines: seq<PatchLine>, i: nat, layout: Layout, side: Side)
    requires ListsAll(lines, layout, side) && i < |lines|
    ensures var more := if Listed(layout, lines[i], side) then [CodeCell(side, hunkIndex, i, lines[i])] else [];
            OnSide(more, side) && NumbersOn(lines[..i + 1], side) == NumbersOn(lines[..i], side) + Numbers(more)
  {
    assert lines[..i + 1][..i] == lines[..i];
  }

  /** A hunk lists exactly the lines between its boundaries. */
  lemma HunkListsItsSpan(view: FileView, k: nat, side: Side)
    requires k < |view.file.hunks| && Sound(view.file.hunks[k], side)
    requires view.layout == Unified && side == Old ==>
             Sound(view.file.hunks[k], New) && view.file.hunks[k].newCount == 0
    ensures OnSide(view.HunkCells(k, side), side)
    ensures Numbers(view.HunkCells(k, side)) == NumbersOn(view.file.hunks[k].lines, side)
         == Span(view.file.hunks[k].First(side), view.file.hunks[k].After(side))
  {
    var hunk := view.file.hunks[k];
    hide Sound, ListsAll, Numbers, OnSide;
    SoundListsAll(hunk, view.layout, side);
    ListedNumbers(k, hunk.lines, |hunk.lines|, view.layout, side);
    assert hunk.lines[..|hunk.lines|] == hunk.lines;
    HunkIsASpan(hunk, side);
  }

  // ---- which lines a file lists ------------------------------------------

  /** The patch fits the captured sources, on a side the layout needs. */
  ghost predicate Fits(view: FileView, side: Side) {
    && view.Valid() && view.Gap(0).Loaded() && Required(view.layout, view.file.status, side)
    && InRange(view.file.hunks, side, view.Count(side))
    && (view.layout == Unified && side == Old ==> InRange(view.file.hunks, New, 0))
  }

  lemma {:induction false} ReachedBounds(hunks: seq<Hunk>, side: Side, count: nat, k: nat)
    requires InRange(hunks, side, count) && k <= |hunks|
    ensures 1 <= Reached(hunks, k, side) <= count + 1
    ensures k < |hunks| ==>
            Reached(hunks, k, side) <= hunks[k].First(side) <= hunks[k].After(side)
            == Reached(hunks, k + 1, side)
    decreases |hunks| - k
  {
    hide AllSound, Sound;
    AtLeastOne(hunks, side, k);
    if k < |hunks| {
      ReachedBounds(hunks, side, count, k + 1);
    }
  }

  lemma {:induction false} AtLeastOne(hunks: seq<Hunk>, side: Side, k: nat)
    requires Ordered(hunks, side) && k <= |hunks|
    ensures 1 <= Reached(hunks, k, side)
  {
    if k > 0 {
      AtLeastOne(hunks, side, k - 1);
    }
  }

  /** When a side has no lines at all, no hunk has any there. */
  lemma NoNewLines(hunks: seq<Hunk>, k: nat)
    requires InRange(hunks, New, 0) && k < |hunks|
    ensures hunks[k].newCount == 0
  {
    hide InRange;
    ReachedBounds(hunks, New, 0, k);
    ReachedBounds(hunks, New, 0, k + 1);
  }

  lemma HunkNumbers(view: FileView, k: nat, side: Side)
    requires Fits(view, side) && k < |view.file.hunks|
    ensures OnSide(view.HunkCells(k, side), side)
    ensures Numbers(view.HunkCells(k, side)) == NumbersOn(view.file.hunks[k].lines, side)
    ensures Numbers(view.HunkCells(k, side)) == Span(view.file.hunks[k].First(side), view.file.hunks[k].After(side))
  {
    hide Sound;
    if view.layout == Unified && side == Old {
      NoNewLines(view.file.hunks, k);
      HunkAt(view.file.hunks, k, New, 0);
    }
    HunkAt(view.file.hunks, k, side, view.Count(side));
    HunkListsItsSpan(view, k, side);
  }

  lemma GapSource(view: FileView, k: nat, side: Side)
    requires Fits(view, side) && k <= |view.file.hunks|
    ensures view.Gap(k).Displays(side) && view.file.Source(side).Captured? && view.Gap(k).Loaded()
    ensures view.Gap(k).gap.On(side) == GapAt(view.file.hunks, k, view.Count(side), side)
  {
    hide InRange, GapAt;
  }

  /** Where gap `k` lies when the patch fits. */
  lemma GapBounds(view: FileView, k: nat, side: Side)
    requires Fits(view, side) && k <= |view.file.hunks|
    ensures Covers(view.Gap(k), side) && view.Gap(k).Loaded()
    ensures var range := view.Gap(k).gap.On(side);
            && range.start == Reached(view.file.hunks, k, side) <= range.end
            && range.end == if k < |view.file.hunks| then view.file.hunks[k].First(side) else view.Count(side) + 1
  {
    hide AllSound, Ordered, NextLine, GapView.Displays, GapView.Loaded, Required;
    GapSource(view, k, side);
    ReachedBounds(view.file.hunks, side, view.Count(side), k);
    if k < |view.file.hunks| {
      ReachedBounds(view.file.hunks, side, view.Count(side), k + 1);
    }
    NextLineIsReached(view.file.hunks, k, side);
  }

  // A file shown in full.

  lemma FullPart(view: FileView, k: nat, side: Side)
    requires Fits(view, side) && view.Gap(0).Full() && k <= |view.file.hunks|
    ensures OnSide(view.GapCells(k, side), side) && !view.Gap(k).HasGapRow()
    ensures var range := GapAt(view.file.hunks, k, view.Count(side), side);
            Numbers(view.GapCells(k, side)) == Span(range.start, range.end)
  {
    hide Fits, GapView.Revealed, GapView.HasGapRow, Numbers, OnSide, Span, GapAt, GapView.Loaded, GapView.Displays,
         Covers;
    GapValid(view, side);
    GapSource(view, k, side);
    GapBounds(view, k, side);
    FullGapHidesNothing(view.Gap(k), side);
  }

  lemma GapValid(view: FileView, side: Side)
    requires Fits(view, side)
    ensures view.Valid()
  {
  }

  /** The listing of the first `k` gaps and hunks grows by the next of each. */
  lemma PartsListed(view: FileView, k: nat, side: Side)
    requires view.Valid() && k < |view.file.hunks|
    requires OnSide(view.CellsBefore(k, side), side) && OnSide(view.GapCells(k, side), side)
    requires OnSide(view.HunkCells(k, side), side)
    ensures OnSide(view.CellsBefore(k + 1, side), side)
    ensures Numbers(view.CellsBefore(k + 1, side))
         == Numbers(view.CellsBefore(k, side)) + Numbers(view.GapCells(k, side)) + Numbers(view.HunkCells(k, side))
  {
    hide OnSide, FileView.HunkCells, FileView.GapCells, Numbers, FileView.Gap;
    var a, b, c := view.CellsBefore(k, side), view.GapCells(k, side), view.HunkCells(k, side);
    OnSideConcat(a, b, side);
    OnSideConcat(a + b, c, side);
  }

  lemma NothingListedYet(view: FileView, side: Side)
    requires view.Valid()
    ensures OnSide(view.CellsBefore(0, side), side) && Numbers(view.CellsBefore(0, side)) == []
            && view.HiddenBefore(0) == 0
    ensures view.CellsBefore(0, side) == []
  {
  }

  lemma {:induction false} FullCellsBefore(view: FileView, k: nat, side: Side)
    requires Fits(view, side) && view.Gap(0).Full() && k <= |view.file.hunks|
    ensures view.Valid() && OnSide(view.CellsBefore(k, side), side)
    ensures Numbers(view.CellsBefore(k, side)) == Interleaved(view.file.hunks, k, view.Count(side), side)
    ensures view.HiddenBefore(k) == 0
  {
    hide Fits, Numbers, OnSide, FileView.HunkCells, FileView.CellsBefore, FileView.GapCells, GapView.Hidden,
         GapView.HasGapRow;
    hide Span, NumbersOn, GapView.Loaded, GapAt, FileView.GapInterval;
    GapValid(view, side);
    NothingListedYet(view, side);
    if k > 0 {
      FullCellsBefore(view, k - 1, side);
      FullPart(view, k - 1, side);
      HunkNumbers(view, k - 1, side);
      PartsListed(view, k - 1, side);
    }
  }

  /** A file shown in full lists every line of each side its layout needs, once and in order, and hides
      none. */
  lemma FullFileListsEveryLine(view: FileView, side: Side)
    requires Fits(view, side) && view.Gap(0).Full()
    ensures OnSide(view.Cells(side), side)
    ensures Numbers(view.Cells(side)) == Span(1, view.Count(side) + 1)
    ensures view.HiddenBefore(|view.file.hunks| + 1) == 0
  {
    hide Numbers, OnSide, FileView.CellsBefore, FileView.GapCells, GapView.Hidden, GapView.HasGapRow, Span, InRange,
         GapView.Loaded;
    hide GapAt, Interleaved;
    var n := |view.file.hunks|;
    FullCellsBefore(view, n, side);
    FullPart(view, n, side);
    OnSideConcat(view.CellsBefore(n, side), view.GapCells(n, side), side);
    GapsAndHunksTile(view.file.hunks, side, view.Count(side));
  }

  // Any reveals.

  ghost predicate Increasing(s: seq<nat>) {
    forall i, j :: 0 <= i < j < |s| ==> s[i] < s[j]
  }

  /** Numbers that ascend from `from` on and stay below `end`. */
  ghost predicate Ascends(s: seq<nat>, from: nat, end: nat) {
    Increasing(s) && forall i :: 0 <= i < |s| ==> from <= s[i] < end
  }

  lemma AscendsJoin(a: seq<nat>, b: seq<nat>, from: nat, middle: nat, end: nat)
    requires from <= middle <= end && Ascends(a, from, middle) && Ascends(b, middle, end)
    ensures Ascends(a + b, from, end)
  {
  }

  lemma SpanAscends(from: nat, end: nat)
    ensures Ascends(Span(from, end), from, end) && |Span(from, end)| == Monus(end, from)
  {
  }

  /** The gap rows of the first `n` gaps stand only for lines this side has. */
  predicate GapsHideOwnLines(view: FileView, side: Side, n: nat)
    requires n <= |view.file.hunks| + 1
  {
    forall k :: 0 <= k < n ==> HidesOwnLines(view.Gap(k), side)
  }

  /** Two spans with a hole between them. */
  lemma SpansAscend(first: nat, a: nat, b: nat, last: nat)
    requires first <= a <= b <= last
    ensures Ascends(Span(first, a) + Span(b, last), first, last)
  {
    hide Span, Ascends;
    SpanAscends(first, a);
    SpanAscends(b, last);
    WidenAscends(Span(first, a), first, a, b);
    AscendsJoin(Span(first, a), Span(b, last), first, b, last);
  }

  ghost function HiddenAt(view: FileView, k: nat): nat
    requires k <= |view.file.hunks|
  {
    if view.Gap(k).HasGapRow() then view.Gap(k).Hidden() else 0
  }

  lemma GapPart(view: FileView, k: nat, side: Side)
    requires Fits(view, side) && k <= |view.file.hunks|
    ensures view.Valid() && OnSide(view.GapCells(k, side), side)
    ensures var range := GapAt(view.file.hunks, k, view.Count(side), side);
            && range.start <= range.end
            && Ascends(Numbers(view.GapCells(k, side)), range.start, range.end)
            && |view.GapCells(k, side)| + HiddenAt(view, k) >= range.end - range.start
            && (|view.GapCells(k, side)| + HiddenAt(view, k) == range.end - range.start <==>
                HidesOwnLines(view.Gap(k), side))
  {
    hide Fits, GapView.Revealed, GapView.Hidden, GapView.HasGapRow, Span, Covers, GapView.Loaded, Numbers, OnSide;
    hide GapView.Prefix, GapView.SuffixStart, Ascends, GapAt, GapView.Displays, HidesOwnLines;
    GapValid(view, side);
    GapSource(view, k, side);
    GapBounds(view, k, side);
    var gap := view.Gap(k);
    GapListsAllButHidden(gap, side);
    GapAddsUp(gap);
    SpansAscend(gap.gap.On(side).start, LineAfter(gap, side, gap.Prefix()), LineAfter(gap, side, gap.SuffixStart()),
                gap.gap.On(side).end);
  }

  lemma WidenAscends(s: seq<nat>, from: nat, end: nat, wider: nat)
    requires Ascends(s, from, end) && end <= wider
    ensures Ascends(s, from, wider)
  {
  }

  lemma {:induction false} PartialCellsBefore(view: FileView, k: nat, side: Side)
    requires Fits(view, side) && k <= |view.file.hunks|
    ensures view.Valid() && OnSide(view.CellsBefore(k, side), side)
    ensures Ascends(Numbers(view.CellsBefore(k, side)), 1, Reached(view.file.hunks, k, side))
    ensures |Numbers(view.CellsBefore(k, side))| + view.HiddenBefore(k) + 1 >= Reached(view.file.hunks, k, side)
    ensures |Numbers(view.CellsBefore(k, side))| + view.HiddenBefore(k) + 1 == Reached(view.file.hunks, k, side)
            <==> GapsHideOwnLines(view, side, k)
  {
    hide Fits, Numbers, OnSide, FileView.HunkCells, FileView.CellsBefore, FileView.GapCells, GapView.Hidden,
         GapView.HasGapRow;
    hide Span, NumbersOn, GapView.Loaded, GapAt, Ascends, HidesOwnLines, FileView.Gap, Covers;
    GapValid(view, side);
    NothingListedYet(view, side);
    if k == 0 {
      NothingAscends();
    } else {
      PartialCellsBefore(view, k - 1, side);
      GapSource(view, k - 1, side);
      GapBounds(view, k - 1, side);
      GapPart(view, k - 1, side);
      HunkNumbers(view, k - 1, side);
      FitsReach(view, k - 1, side);
      PartsListed(view, k - 1, side);
      var hunk := view.file.hunks[k - 1];
      SpanAscends(hunk.First(side), hunk.After(side));
      AscendsJoin(Numbers(view.CellsBefore(k - 1, side)), Numbers(view.GapCells(k - 1, side)), 1,
                  Reached(view.file.hunks, k - 1, side), hunk.First(side));
      AscendsJoin(Numbers(view.CellsBefore(k - 1, side)) + Numbers(view.GapCells(k - 1, side)),
                  Numbers(view.HunkCells(k - 1, side)), 1, hunk.First(side), hunk.After(side));
    }
  }

  lemma FitsReach(view: FileView, k: nat, side: Side)
    requires Fits(view, side) && k < |view.file.hunks|
    ensures var hunk := view.file.hunks[k];
            1 <= Reached(view.file.hunks, k, side) <= hunk.First(side) <= hunk.After(side)
                == Reached(view.file.hunks, k + 1, side)
  {
    hide InRange;
    ReachedBounds(view.file.hunks, side, view.Count(side), k);
  }

  lemma NothingAscends()
    ensures Ascends([], 1, 1)
  {
  }

  /** Whatever is revealed, a file lists lines of each side its layout needs in ascending order, none
      twice. Its gap rows stand for exactly as many lines as it does not list if and only if none of them
      stands for a line this side does not have; otherwise they claim more. */
  lemma PartialFileListsTheRest(view: FileView, side: Side)
    requires Fits(view, side)
    ensures OnSide(view.Cells(side), side)
    ensures Ascends(Numbers(view.Cells(side)), 1, view.Count(side) + 1)
    ensures |view.Cells(side)| + view.HiddenBefore(|view.file.hunks| + 1) >= view.Count(side)
    ensures |view.Cells(side)| + view.HiddenBefore(|view.file.hunks| + 1) == view.Count(side)
            <==> GapsHideOwnLines(view, side, |view.file.hunks| + 1)
  {
    hide Numbers, OnSide, FileView.CellsBefore, FileView.GapCells, GapView.Hidden, GapView.HasGapRow, InRange,
         GapView.Loaded;
    hide Ascends, HidesOwnLines, GapAt, Covers, FileView.Gap;
    var n := |view.file.hunks|;
    PartialCellsBefore(view, n, side);
    GapSource(view, n, side);
    GapBounds(view, n, side);
    GapPart(view, n, side);
    OnSideConcat(view.CellsBefore(n, side), view.GapCells(n, side), side);
    ReachedBounds(view.file.hunks, side, view.Count(side), n);
    AscendsJoin(Numbers(view.CellsBefore(n, side)), Numbers(view.GapCells(n, side)), 1,
                Reached(view.file.hunks, n, side), view.Count(side) + 1);
  }

  // No line twice, whatever is revealed and whether or not the sources are there.

  lemma AscendsWithin(a: seq<nat>, b: seq<nat>, from: nat, middle: nat, end: nat)
    requires from <= middle && Ascends(a, from, middle) && Ascends(a, from, end) && Ascends(b, middle, end)
    ensures Ascends(a + b, from, end)
  {
  }

  lemma {:induction false} ContextAscends(view: GapView, side: Side, from: nat, end: nat)
    requires view.Valid()
    ensures OnSide(view.ContextCells(side, from, end), side)
    ensures Ascends(Numbers(view.ContextCells(side, from, end)), view.gap.On(side).start + from,
                    Min(view.gap.On(side).start + end, view.gap.On(side).end))
    decreases end
  {
    if from < end {
      ContextAscends(view, side, from, end - 1);
      var cells, more := view.ContextCells(side, from, end - 1), view.ContextCell(side, end - 1);
      OnSideConcat(cells, more, side);
      var first, last := view.gap.On(side).start, view.gap.On(side).end;
      AscendsWithin(Numbers(cells), Numbers(more), first + from, first + end - 1, Min(first + end, last));
    }
  }

  lemma GapAscends(view: FileView, k: nat, side: Side)
    requires view.Valid() && k <= |view.file.hunks|
    ensures OnSide(view.GapCells(k, side), side)
    ensures var range := view.Gap(k).gap.On(side); Ascends(Numbers(view.GapCells(k, side)), range.start, range.end)
  {
    hide GapView.ContextCells, OnSide, Numbers, GapView.Prefix, GapView.SuffixStart, FileView.GapInterval;
    var gap := view.Gap(k);
    NoNumbers();
    if !gap.Skipped() && gap.Loaded() {
      var first, last := gap.gap.On(side).start, gap.gap.On(side).end;
      ContextAscends(gap, side, 0, gap.Prefix());
      ContextAscends(gap, side, gap.SuffixStart(), gap.Total());
      OnSideConcat(gap.ContextCells(side, 0, gap.Prefix()), gap.ContextCells(side, gap.SuffixStart(), gap.Total()),
                   side);
      AscendsWithin(Numbers(gap.ContextCells(side, 0, gap.Prefix())),
                    Numbers(gap.ContextCells(side, gap.SuffixStart(), gap.Total())), first, first + gap.SuffixStart(),
                        last);
    }
  }

  lemma {:induction false} PatchAscends(hunkIndex: nat, lines: seq<PatchLine>, k: nat, layout: Layout, side: Side,
                                        start: nat)
    requires NumberedFrom(lines, side, start) && k <= |lines|
    ensures Within(Span(0, k), lines)
    ensures OnSide(PatchCells(hunkIndex, lines, Span(0, k), layout, side), side)
    ensures Ascends(Numbers(PatchCells(hunkIndex, lines, Span(0, k), layout, side)), start,
                    start + CountOn(lines[..k], side))
  {
    hide NumberedFrom, Numbers, OnSide, Ascends, CountOn;
    NoNumbers();
    if k == 0 {
      EmptyAscends(start, start + CountOn(lines[..0], side));
    } else {
      PatchAscends(hunkIndex, lines, k - 1, layout, side, start);
      NextPatchCell(hunkIndex, lines, k - 1, layout);
      var cells := PatchCells(hunkIndex, lines, Span(0, k - 1), layout, side);
      var more := if Listed(layout, lines[k - 1], side) then [CodeCell(side, hunkIndex, k - 1, lines[k - 1])] else [];
      OnSideConcat(cells, more, side);
      NextAscends(hunkIndex, lines, k - 1, layout, side, start);
      AscendsJoin(Numbers(cells), Numbers(more), start, start + CountOn(lines[..k - 1], side),
                  start + CountOn(lines[..k], side));
    }
  }

  lemma EmptyAscends(from: nat, end: nat)
    ensures Ascends([], from, end)
  {
  }

  lemma NextAscends(hunkIndex: nat, lines: seq<PatchLine>, i: nat, layout: Layout, side: Side, start: nat)
    requires NumberedFrom(lines, side, start) && i < |lines|
    ensures CountOn(lines[..i], side) <= CountOn(lines[..i + 1], side)
    ensures var more := if Listed(layout, lines[i], side) then [CodeCell(side, hunkIndex, i, lines[i])] else [];
            OnSide(more, side) && Ascends(Numbers(more), start + CountOn(lines[..i], side),
                                          start + CountOn(lines[..i + 1], side))
  {
    assert lines[..i + 1][..i] == lines[..i];
    assert lines[i].Number(side) == NumberAt(lines, i, side, start);
  }

  lemma HunkAscends(view: FileView, k: nat, side: Side)
    requires k < |view.file.hunks| && Sound(view.file.hunks[k], side)
    ensures OnSide(view.HunkCells(k, side), side)
    ensures Ascends(Numbers(view.HunkCells(k, side)), view.file.hunks[k].First(side), view.file.hunks[k].After(side))
  {
    hide Numbers, OnSide, NumberedFrom;
    var hunk := view.file.hunks[k];
    PatchAscends(k, hunk.lines, |hunk.lines|, view.layout, side, hunk.Start(side));
    assert hunk.lines[..|hunk.lines|] == hunk.lines;
  }

  lemma StepAscends(view: FileView, k: nat, side: Side)
    requires view.Valid() && k < |view.file.hunks| && AllSound(view.file.hunks, side) && Ordered(view.file.hunks, side)
    requires OnSide(view.CellsBefore(k, side), side)
    requires Ascends(Numbers(view.CellsBefore(k, side)), 1, Reached(view.file.hunks, k, side))
    ensures OnSide(view.CellsBefore(k + 1, side), side)
    ensures Ascends(Numbers(view.CellsBefore(k + 1, side)), 1, Reached(view.file.hunks, k + 1, side))
  {
    hide Numbers, OnSide, Ascends, FileView.GapCells, FileView.HunkCells, FileView.CellsBefore, Sound, NextLine;
    var hunk := view.file.hunks[k];
    GapAscends(view, k, side);
    HunkAscends(view, k, side);
    PartsListed(view, k, side);
    NextLineIsReached(view.file.hunks, k, side);
    AtLeastOne(view.file.hunks, side, k);
    AscendsJoin(Numbers(view.CellsBefore(k, side)), Numbers(view.GapCells(k, side)), 1,
                Reached(view.file.hunks, k, side), hunk.First(side));
    AscendsJoin(Numbers(view.CellsBefore(k, side)) + Numbers(view.GapCells(k, side)), Numbers(view.HunkCells(k, side)),
                1, hunk.First(side), hunk.After(side));
  }

  lemma {:induction false} CellsBeforeAscend(view: FileView, k: nat, side: Side)
    requires view.Valid() && k <= |view.file.hunks| && AllSound(view.file.hunks, side) && Ordered(view.file.hunks, side)
    ensures OnSide(view.CellsBefore(k, side), side)
    ensures Ascends(Numbers(view.CellsBefore(k, side)), 1, Reached(view.file.hunks, k, side))
  {
    hide Numbers, OnSide, Ascends, FileView.CellsBefore, AllSound, Ordered;
    NothingListedYet(view, side);
    if k == 0 {
      NothingAscends();
    } else {
      CellsBeforeAscend(view, k - 1, side);
      StepAscends(view, k - 1, side);
    }
  }

  /** On either side, in either layout, with any reveals and any sources, a file whose hunks are in
      order there lists no line twice and its lines ascend. */
  lemma FileListsNoLineTwice(view: FileView, side: Side)
    requires view.Valid() && AllSound(view.file.hunks, side) && Ordered(view.file.hunks, side)
    ensures OnSide(view.Cells(side), side) && Increasing(Numbers(view.Cells(side)))
  {
    hide Numbers, OnSide, FileView.CellsBefore, FileView.GapCells, AllSound, Ordered, NextLine, Increasing;
    var n := |view.file.hunks|;
    CellsBeforeAscend(view, n, side);
    GapAscends(view, n, side);
    NextLineIsReached(view.file.hunks, n, side);
    AtLeastOne(view.file.hunks, side, n);
    var range := view.Gap(n).gap.On(side);
    OnSideConcat(view.CellsBefore(n, side), view.GapCells(n, side), side);
    AscendsJoin(Numbers(view.CellsBefore(n, side)), Numbers(view.GapCells(n, side)), 1, range.start, range.end);
  }
}
