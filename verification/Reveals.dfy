/**
 Revealing a gap from the review session: which gap the selection means, and how far repeated
 reveals open it.
 */
module Reveals {
  import opened Bytes
  import opened Hunks
  import opened Documents
  import opened Rows
  import opened GapRows
  import opened HunkRows
  import opened FileRows
  import opened Presentation
  import TreeListing

  const EXPAND_STEP: nat := 20
  const USIZE_MAX: nat := 0xFFFF_FFFF_FFFF_FFFF

  datatype RevealAmount = Step | All
  {
    function Lines(): nat { if Step? then EXPAND_STEP else USIZE_MAX }
  }

  function SaturatingAdd(a: nat, b: nat): nat { Min(a + b, USIZE_MAX) }

  /** A gap opens from the hunks it touches; a file without hunks opens from both ends. */
  function Reveal(expansion: GapExpansion, gapIndex: nat, hunkCount: nat, amount: RevealAmount): GapExpansion {
    GapExpansion(
      if gapIndex != 0 || hunkCount == 0 then SaturatingAdd(expansion.prefix, amount.Lines()) else expansion.prefix,
      if gapIndex != hunkCount || hunkCount == 0 then SaturatingAdd(expansion.suffix, amount.Lines())
          else expansion.suffix)
  }

  ghost function RevealSteps(gapIndex: nat, hunkCount: nat, k: nat): GapExpansion {
    if k == 0 then GapExpansion(0, 0) else Reveal(RevealSteps(gapIndex, hunkCount, k - 1), gapIndex, hunkCount, Step)
  }

  lemma {:induction false} StepsAdd(gapIndex: nat, hunkCount: nat, k: nat)
    ensures RevealSteps(gapIndex, hunkCount, k).prefix
         == if gapIndex != 0 || hunkCount == 0 then Min(EXPAND_STEP * k, USIZE_MAX) else 0
    ensures RevealSteps(gapIndex, hunkCount, k).suffix
         == if gapIndex != hunkCount || hunkCount == 0 then Min(EXPAND_STEP * k, USIZE_MAX) else 0
  {
    if k > 0 {
      StepsAdd(gapIndex, hunkCount, k - 1);
    }
  }

  /** After `k` single reveals a gap before the first or after the last hunk hides all but `k` steps of its
      lines, any other gap all but `2k`; no gap is ever overdrawn. */
  lemma StepsLeave(view: GapView, k: nat)
    requires view.Loaded() && !view.Full() && view.Total() <= USIZE_MAX && view.gapIndex <= |view.file.hunks|
    requires view.Expansion() == RevealSteps(view.gapIndex, |view.file.hunks|, k)
    ensures var edge := |view.file.hunks| > 0 && (view.gapIndex == 0 || view.gapIndex == |view.file.hunks|);
            view.Hidden() == Monus(view.Total(), if edge then EXPAND_STEP * k else 2 * EXPAND_STEP * k)
  {
    StepsAdd(view.gapIndex, |view.file.hunks|, k);
  }

  /** Revealing everything leaves nothing hidden. */
  lemma RevealAllLeavesNothing(view: GapView, before: GapExpansion)
    requires view.Loaded() && view.Total() <= USIZE_MAX && view.gapIndex <= |view.file.hunks|
    requires view.Expansion() == Reveal(before, view.gapIndex, |view.file.hunks|, All)
    ensures view.Hidden() == 0 && !view.HasGapRow()
  {
  }

  predicate Reveals(view: GapView, offset: nat) {
    offset < view.Prefix() || view.SuffixStart() <= offset < view.Total()
  }

  /** A further reveal never hides a line again. */
  lemma RevealOnlyOpens(view: GapView, after: GapView, amount: RevealAmount)
    requires after == view.(projection := after.projection) && after.Full() == view.Full()
    requires view.Expansion().prefix <= USIZE_MAX && view.Expansion().suffix <= USIZE_MAX
    requires after.Expansion() == Reveal(view.Expansion(), view.gapIndex, |view.file.hunks|, amount)
    ensures after.Hidden() <= view.Hidden()
    ensures forall offset: nat :: Reveals(view, offset) ==> Reveals(after, offset)
  {
  }

  /** What was shown of a gap still is, and revealing everything leaves nothing hidden. */
  ghost predicate Opens(view: GapView, after: GapView, amount: RevealAmount) {
    && after.Hidden() <= view.Hidden()
    && (forall offset: nat :: Reveals(view, offset) ==> Reveals(after, offset))
    && (amount == All && view.Loaded() && view.Total() <= USIZE_MAX && view.gapIndex <= |view.file.hunks| ==>
          after.Hidden() == 0 && !after.HasGapRow())
  }

  /** In every layout. */
  ghost predicate OpensGap(before: ContentProjection, after: ContentProjection, id: GapId, file: FileDiff,
                           amount: RevealAmount)
  {
    forall gap: GapInterval, layout: Layout ::
      Opens(GapView(id.fileIndex, id.gapIndex, file, gap, layout, before),
            GapView(id.fileIndex, id.gapIndex, file, gap, layout, after), amount)
  }

  /** Expansions are machine words. */
  ghost predicate Fit(projection: ContentProjection) {
    forall id :: id in projection.expansions ==>
                   projection.expansions[id].prefix <= USIZE_MAX && projection.expansions[id].suffix <= USIZE_MAX
  }

  lemma FitDependsOnExpansions(before: ContentProjection, after: ContentProjection)
    requires Fit(before) && after.expansions == before.expansions
    ensures Fit(after)
  {
  }

  lemma RevealOpensGap(before: ContentProjection, after: ContentProjection, id: GapId, file: FileDiff,
                       amount: RevealAmount)
    requires Fit(before)
    requires var was := if id in before.expansions then before.expansions[id] else GapExpansion(0, 0);
             after == before.(expansions :=
               before.expansions[id := Reveal(was, id.gapIndex, |file.hunks|, amount)])
    ensures Fit(after) && OpensGap(before, after, id, file, amount)
  {
    hide GapView.Hidden, GapView.HasGapRow, Reveals;
    forall gap: GapInterval, layout: Layout
      ensures Opens(GapView(id.fileIndex, id.gapIndex, file, gap, layout, before),
                    GapView(id.fileIndex, id.gapIndex, file, gap, layout, after), amount)
    {
      var view := GapView(id.fileIndex, id.gapIndex, file, gap, layout, before);
      var now := GapView(id.fileIndex, id.gapIndex, file, gap, layout, after);
      RevealOnlyOpens(view, now, amount);
      if amount == All && view.Loaded() && view.Total() <= USIZE_MAX && view.gapIndex <= |view.file.hunks| {
        RevealAllLeavesNothing(now, view.Expansion());
      }
    }
  }

  /** The cell a selection on a side means. */
  function PreferredCell(row: Row, side: Side): Option<Cell> {
    if row.CellOn(side).Some? then row.CellOn(side)
    else if row.right.Some? then row.right else row.left
  }

  /** The gap a selected row stands for, or for a code row the gap at the nearer edge of its hunk. */
  function SelectedGap(p: Presented, files: seq<FileDiff>, row: nat, side: Side): Option<GapId> {
    if row in p.gapInfo then Some(p.gapInfo[row].id)
    else if row >= |p.rows| then None
    else
      var cell := PreferredCell(p.rows[row], side);
      if cell.None? || cell.value.patchSource.None? || p.rows[row].fileIndex >= |files| then None
      else
        var source := cell.value.patchSource.value;
        var hunks := files[p.rows[row].fileIndex].hunks;
        if source.hunkIndex >= |hunks| then None
        else if source.lineIndex * 2 >= |hunks[source.hunkIndex].lines|
            then Some(GapId(p.rows[row].fileIndex, source.hunkIndex + 1))
        else Some(GapId(p.rows[row].fileIndex, source.hunkIndex))
  }

  /** The part of a review session that decides what its presentation reveals. */
  class ReviewSession {
    const files: seq<FileDiff>
    const options: Options
    const differ: Differ
    var projection: ContentProjection
    var presented: Presented

    ghost predicate Valid()
      reads this
    {
      && (forall f :: 0 <= f < |files| ==> files[f].Valid()) && DifferContract(differ)
      && Presents(presented, files, options, projection) && Fit(projection)
      && TreeListing.InOrder(TreeListing.PathsOf(files), presented.fileOrder)
    }

    constructor (files: seq<FileDiff>, options: Options, differ: Differ)
      requires (forall f :: 0 <= f < |files| ==> files[f].Valid()) && DifferContract(differ)
      ensures Valid() && projection == ContentProjection(None, map[], {}, {})
    {
      this.files, this.options, this.differ := files, options, differ;
      projection := ContentProjection(None, map[], {}, {});
      var first := WithProjection(files, options, ContentProjection(None, map[], {}, {}), differ);
      presented := first;
    }

    method Rebuild()
      requires (forall f :: 0 <= f < |files| ==> files[f].Valid()) && DifferContract(differ) && Fit(projection)
      modifies this`presented
      ensures Valid()
    {
      presented := WithProjection(files, options, projection, differ);
    }

    /** The folded file whose header is selected, if one is. */
    function FoldedHeader(row: nat): Option<nat>
      reads this
    {
      if row < |presented.rows| && presented.rows[row].kind == FileHeader
         && presented.rows[row].fileIndex < |presented.collapsed| && presented.collapsed[presented.rows[row].fileIndex]
         && presented.rows[row].fileIndex < |files|
      then Some(presented.rows[row].fileIndex) else None
    }

    /** Opens the folded file whose header is selected, or else reveals more of the selected gap. */
    method RevealSelectedGap(selectedRow: nat, selectedSide: Side, amount: RevealAmount) returns (revealed: bool)
      requires Valid()
      modifies this
      ensures Valid()
      ensures revealed <==> if old(FoldedHeader(selectedRow)).Some? then old(projection).sourceView.None?
                            else old(SelectedGap(presented, files, selectedRow, selectedSide)).Some?
                                 && old(SelectedGap(presented, files, selectedRow,
                                                    selectedSide)).value.fileIndex < |files|
      ensures !revealed ==> projection == old(projection) && presented == old(presented)
      ensures revealed && old(FoldedHeader(selectedRow)).Some? ==>
                projection == old(projection).(collapsedFiles :=
                  old(projection).collapsedFiles - {files[old(FoldedHeader(selectedRow)).value].path})
      ensures revealed && old(FoldedHeader(selectedRow)).None? ==>
                var id := old(SelectedGap(presented, files, selectedRow, selectedSide)).value;
                var was := if id in old(projection).expansions then old(projection).expansions[id]
                    else GapExpansion(0, 0);
                projection == old(projection).(expansions :=
                  old(projection).expansions[id := Reveal(was, id.gapIndex, |files[id.fileIndex].hunks|, amount)])
                && OpensGap(old(projection), projection, id, files[id.fileIndex], amount)
    {
      hide Presents, OpensGap, Fit;
      var folded := FoldedHeader(selectedRow);
      if folded.Some? {
        if projection.sourceView.Some? {
          return false;
        }
        FitDependsOnExpansions(projection, projection.(collapsedFiles :=
          projection.collapsedFiles - {files[folded.value].path}));
        projection := projection.(collapsedFiles := projection.collapsedFiles - {files[folded.value].path});
        Rebuild();
        return true;
      }
      var id := SelectedGap(presented, files, selectedRow, selectedSide);
      if id.None? || id.value.fileIndex >= |files| {
        return false;
      }
      var hunkCount := |files[id.value.fileIndex].hunks|;
      var expansion := if id.value in projection.expansions then projection.expansions[id.value]
          else GapExpansion(0, 0);
      var amountLines := amount.Lines();
      if id.value.gapIndex != 0 || hunkCount == 0 {
        expansion := expansion.(prefix := SaturatingAdd(expansion.prefix, amountLines));
      }
      if id.value.gapIndex != hunkCount || hunkCount == 0 {
        expansion := expansion.(suffix := SaturatingAdd(expansion.suffix, amountLines));
      }
      ghost var before := projection;
      projection := projection.(expansions := projection.expansions[id.value := expansion]);
      RevealOpensGap(before, projection, id.value, files[id.value.fileIndex], amount);
      Rebuild();
      return true;
    }
  }
}
