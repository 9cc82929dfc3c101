/**
 Presented rows. A row has a left cell for the old version and a right cell for the new one; the
 cells that show a source line, read down one side, are what a presentation lists of a file.
 */
module Rows {
  import opened Bytes
  import opened SourceDocuments
  import opened Hunks
  import opened Documents

  datatype Layout = Unified | Split
  {
    /** One-sided files have nothing to put beside. */
    function ForStatus(status: FileStatus): Layout {
      if status == Created || status == Untracked || status == Deleted then Unified else this
    }
  }

  /** Where in the patch a cell's line is. */
  datatype CellSource = CellSource(side: Side, hunkIndex: nat, lineIndex: nat)

  datatype SourceLineRef = SourceLineRef(side: Side, number: nat)

  datatype CellText = Verbatim(text: Source) | Label

  datatype Cell = Cell(patchSource: Option<CellSource>, sourceLine: Option<SourceLineRef>, text: CellText)

  datatype RowKind = FileHeader | MetaRow | Code | ExpandedContext | ExpandGap

  datatype Row = Row(kind: RowKind, fileIndex: nat, hunkIndex: Option<nat>, left: Option<Cell>, right: Option<Cell>)
  {
    function CellOn(side: Side): Option<Cell> {
      if side == Old then left else right
    }

    /** The cell on a side, if it shows a source line. */
    function Lines(side: Side): seq<Cell> {
      var cell := CellOn(side);
      if cell.Some? && cell.value.sourceLine.Some? then [cell.value] else []
    }
  }

  const LABEL_CELL := Cell(None, None, Label)

  function LabelRow(kind: RowKind, fileIndex: nat, hunkIndex: Option<nat>): Row {
    Row(kind, fileIndex, hunkIndex, None, Some(LABEL_CELL))
  }

  /** The cells that show source lines, down one side. */
  function LinesOn(rows: seq<Row>, side: Side): seq<Cell> {
    if rows == [] then [] else LinesOn(rows[..|rows| - 1], side) + rows[|rows| - 1].Lines(side)
  }

  lemma LinesOnPush(rows: seq<Row>, row: Row, side: Side)
    ensures LinesOn(rows + [row], side) == LinesOn(rows, side) + row.Lines(side)
  {
    assert (rows + [row])[..|rows|] == rows;
  }

  lemma LinesOnOne(row: Row)
    ensures forall side :: LinesOn([row], side) == row.Lines(side)
  {
    assert [row][..0] == [];
  }

  lemma {:induction false} LinesOnConcat(a: seq<Row>, b: seq<Row>, side: Side)
    ensures LinesOn(a + b, side) == LinesOn(a, side) + LinesOn(b, side)
    decreases |b|
  {
    if b == [] {
      assert a + b == a;
    } else {
      assert (a + b)[..|a + b| - 1] == a + b[..|b| - 1];
      LinesOnConcat(a, b[..|b| - 1], side);
    }
  }

  /** What was appended lists what was added to the listing. */
  lemma LinesOnAppended(before: seq<Row>, after: seq<Row>, side: Side, added: seq<Cell>)
    requires before <= after && LinesOn(after, side) == LinesOn(before, side) + added
    ensures LinesOn(after[|before|..], side) == added
  {
    LinesOnConcat(before, after[|before|..], side);
    assert before + after[|before|..] == after;
    var was := LinesOn(before, side);
    assert (was + added)[|was|..] == added;
    assert (was + LinesOn(after[|before|..], side))[|was|..] == LinesOn(after[|before|..], side);
  }

  /** The line numbers of a listing, whose cells all show a source line. */
  function Numbers(cells: seq<Cell>): (r: seq<nat>)
    ensures |r| == |cells|
  {
    seq(|cells|, i requires 0 <= i < |cells| =>
      if cells[i].sourceLine.Some? then cells[i].sourceLine.value.number else 0)
  }

  /** Each cell of a listing shows a line of its own side. */
  ghost predicate OnSide(cells: seq<Cell>, side: Side) {
    forall c :: c in cells ==>
                  && c.sourceLine.Some? && c.sourceLine.value.side == side
                  && (c.patchSource.Some? ==> c.patchSource.value.side == side)
  }

  lemma OnSideConcat(a: seq<Cell>, b: seq<Cell>, side: Side)
    ensures OnSide(a + b, side) <==> OnSide(a, side) && OnSide(b, side)
    ensures Numbers(a + b) == Numbers(a) + Numbers(b)
  {
    assert forall c :: c in a + b <==> c in a || c in b;
  }

  // ---- gap rows ----------------------------------------------------------

  datatype GapId = GapId(fileIndex: nat, gapIndex: nat)

  datatype GapInfo = GapInfo(id: GapId, hidden: nat, unavailable: Option<Unavailable>)

  /** The gap information is about exactly the gap rows. */
  ghost predicate IndexesGaps(info: map<nat, GapInfo>, rows: seq<Row>) {
    forall i: nat :: i in info <==> i < |rows| && rows[i].kind == ExpandGap
  }

  /** The lines that the gap rows from `lo` up to `hi` stand for. */
  ghost function HiddenLines(info: map<nat, GapInfo>, lo: nat, hi: nat): nat
    decreases hi
  {
    if hi <= lo then 0
    else HiddenLines(info, lo, hi - 1) + if hi - 1 in info then info[hi - 1].hidden else 0
  }

  lemma {:induction false} HiddenLinesSame(info: map<nat, GapInfo>, other: map<nat, GapInfo>, lo: nat, hi: nat)
    requires forall i :: lo <= i < hi ==> (i in info <==> i in other) && (i in info ==> info[i] == other[i])
    ensures HiddenLines(info, lo, hi) == HiddenLines(other, lo, hi)
    decreases hi
  {
    if hi > lo {
      HiddenLinesSame(info, other, lo, hi - 1);
    }
  }

  lemma {:induction false} HiddenLinesJoin(info: map<nat, GapInfo>, a: nat, b: nat, c: nat)
    requires a <= b <= c
    ensures HiddenLines(info, a, c) == HiddenLines(info, a, b) + HiddenLines(info, b, c)
    decreases c
  {
    if b < c {
      HiddenLinesJoin(info, a, b, c - 1);
    }
  }

  lemma {:induction false} NothingHidden(info: map<nat, GapInfo>, lo: nat, hi: nat)
    requires forall i :: lo <= i < hi ==> i !in info
    ensures HiddenLines(info, lo, hi) == 0
    decreases hi
  {
    if hi > lo {
      NothingHidden(info, lo, hi - 1);
    }
  }
}
