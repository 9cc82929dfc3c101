/**
 Rows for the lines of a hunk: one code column, or two with runs of removed and added lines put side
 by side. Lines are named by their index in the hunk.
 */
module HunkRows {
  import opened Bytes
  import opened Hunks
  import opened Rows

  /** The number a code cell shows on a side. */
  function CodeNumber(line: PatchLine, side: Side): Option<nat> {
    if line.kind == Meta || line.kind == HunkHeader then None else line.Number(side)
  }

  function CodeCell(side: Side, hunkIndex: nat, lineIndex: nat, line: PatchLine): Cell {
    var number := CodeNumber(line, side);
    if number.None? then Cell(None, None, Verbatim(line.text))
    else Cell(Some(CellSource(side, hunkIndex, lineIndex)), Some(SourceLineRef(side, number.value)),
              Verbatim(line.text))
  }

  /** Whether a layout lists a line on a side. One column shows context lines as the new version. */
  predicate Listed(layout: Layout, line: PatchLine, side: Side) {
    && CodeNumber(line, side).Some?
    && match layout
       case Unified => side == if line.kind == Removed then Old else New
       case Split => line.kind != if side == Old then Added else Removed
  }

  ghost predicate Within(indices: seq<nat>, lines: seq<PatchLine>) {
    forall k :: 0 <= k < |indices| ==> indices[k] < |lines|
  }

  /** What the hunk lists on a side, of the lines with these indices. */
  ghost function PatchCells(hunkIndex: nat, lines: seq<PatchLine>, indices: seq<nat>, layout: Layout,
                            side: Side): seq<Cell>
    requires Within(indices, lines)
  {
    if indices == [] then []
    else
      var last := indices[|indices| - 1];
      PatchCells(hunkIndex, lines, indices[..|indices| - 1], layout, side)
      + if Listed(layout, lines[last], side) then [CodeCell(side, hunkIndex, last, lines[last])] else []
  }

  lemma {:induction false} PatchCellsConcat(hunkIndex: nat, lines: seq<PatchLine>, a: seq<nat>, b: seq<nat>,
                                            layout: Layout, side: Side)
    requires Within(a, lines) && Within(b, lines)
    ensures Within(a + b, lines)
    ensures PatchCells(hunkIndex, lines, a + b, layout, side)
         == PatchCells(hunkIndex, lines, a, layout, side) + PatchCells(hunkIndex, lines, b, layout, side)
    decreases |b|
  {
    if b == [] {
      assert a + b == a;
    } else {
      var init := b[..|b| - 1];
      assert (a + b)[..|a + b| - 1] == a + init;
      PatchCellsConcat(hunkIndex, lines, a, init, layout, side);
    }
  }

  /** A code row holds one context line twice, or a removed line, an added line, or one of each. */
  ghost predicate IsCodeRow(row: Row, fileIndex: nat, hunkIndex: nat, lines: seq<PatchLine>) {
    && row.kind == Code && row.fileIndex == fileIndex && row.hunkIndex == Some(hunkIndex)
    && (row.Lines(Old) != [] && row.Lines(New) != [] ==>
          && row.Lines(Old)[0].patchSource.Some? && row.Lines(New)[0].patchSource.Some?
          && var left, right := row.Lines(Old)[0].patchSource.value.lineIndex,
              row.Lines(New)[0].patchSource.value.lineIndex;
             && left < |lines| && right < |lines|
             && (left == right || (lines[left].kind == Removed && lines[right].kind == Added)))
  }

  ghost predicate FromHunk(row: Row, fileIndex: nat, hunkIndex: nat, lines: seq<PatchLine>) {
    IsCodeRow(row, fileIndex, hunkIndex, lines) || row == LabelRow(MetaRow, fileIndex, Some(hunkIndex))
  }

  ghost predicate AllFromHunk(rows: seq<Row>, from: nat, fileIndex: nat, hunkIndex: nat, lines: seq<PatchLine>) {
    forall i :: from <= i < |rows| ==> FromHunk(rows[i], fileIndex, hunkIndex, lines)
  }

  lemma FromHunkPush(rows: seq<Row>, from: nat, row: Row, fileIndex: nat, hunkIndex: nat, lines: seq<PatchLine>)
    requires AllFromHunk(rows, from, fileIndex, hunkIndex, lines) && FromHunk(row, fileIndex, hunkIndex, lines)
    ensures AllFromHunk(rows + [row], from, fileIndex, hunkIndex, lines)
  {
  }

  // ---- one column --------------------------------------------------------

  function UnifiedRow(fileIndex: nat, hunkIndex: nat, lineIndex: nat, line: PatchLine): Row {
    var side := if line.kind == Removed then Old else New;
    var cell := Some(CodeCell(side, hunkIndex, lineIndex, line));
    Row(Code, fileIndex, Some(hunkIndex), if side == Old then cell else None, if side == New then cell else None)
  }

  method AppendNoNewline(rows: seq<Row>, fileIndex: nat, hunkIndex: nat, line: PatchLine, ghost from: nat,
                         ghost lines: seq<PatchLine>)
    returns (after: seq<Row>)
    requires AllFromHunk(rows, from, fileIndex, hunkIndex, lines)
    ensures after == if line.noNewline then rows + [LabelRow(MetaRow, fileIndex, Some(hunkIndex))] else rows
    ensures AllFromHunk(after, from, fileIndex, hunkIndex, lines)
    ensures forall side :: LinesOn(after, side) == LinesOn(rows, side)
  {
    hide LinesOn;
    after := rows;
    if line.noNewline {
      var row := LabelRow(MetaRow, fileIndex, Some(hunkIndex));
      after := after + [row];
      forall side
        ensures LinesOn(after, side) == LinesOn(rows, side)
      {
        LinesOnPush(rows, row, side);
      }
    }
  }

  lemma UnifiedRowLists(fileIndex: nat, hunkIndex: nat, lines: seq<PatchLine>, i: nat)
    requires i < |lines|
    ensures FromHunk(UnifiedRow(fileIndex, hunkIndex, i, lines[i]), fileIndex, hunkIndex, lines)
    ensures forall side :: UnifiedRow(fileIndex, hunkIndex, i, lines[i]).Lines(side)
                        == if Listed(Unified, lines[i], side) then [CodeCell(side, hunkIndex, i, lines[i])] else []
  {
  }

  /** Every line of the hunk, in order, each on the one side it stands for. */
  method AppendUnifiedRows(rows: seq<Row>, fileIndex: nat, hunkIndex: nat, lines: seq<PatchLine>)
    returns (after: seq<Row>)
    ensures rows <= after && AllFromHunk(after, |rows|, fileIndex, hunkIndex, lines)
    ensures forall side :: LinesOn(after, side)
                        == LinesOn(rows, side) + PatchCells(hunkIndex, lines, Span(0, |lines|), Unified, side)
  {
    hide LinesOn, PatchCells, Listed, CodeCell, UnifiedRow, FromHunk, AllFromHunk;
    after := rows;
    NothingFromHunk(rows, fileIndex, hunkIndex, lines);
    NoPatchCells(hunkIndex, lines);
    for i := 0 to |lines|
      invariant rows <= after && AllFromHunk(after, |rows|, fileIndex, hunkIndex, lines)
      invariant forall side :: LinesOn(after, side)
                            == LinesOn(rows, side) + PatchCells(hunkIndex, lines, Span(0, i), Unified, side)
    {
      var row := UnifiedRow(fileIndex, hunkIndex, i, lines[i]);
      UnifiedRowAppended(rows, after, fileIndex, hunkIndex, lines, i);
      after := after + [row];
      after := AppendNoNewline(after, fileIndex, hunkIndex, lines[i], |rows|, lines);
    }
  }

  lemma UnifiedRowAppended(rows: seq<Row>, after: seq<Row>, fileIndex: nat, hunkIndex: nat, lines: seq<PatchLine>,
                           i: nat)
    requires i < |lines| && AllFromHunk(after, |rows|, fileIndex, hunkIndex, lines)
    requires forall side ::
             LinesOn(after, side) == LinesOn(rows, side) + PatchCells(hunkIndex, lines, Span(0, i), Unified, side)
    ensures var next := after + [UnifiedRow(fileIndex, hunkIndex, i, lines[i])];
            && AllFromHunk(next, |rows|, fileIndex, hunkIndex, lines)
            && forall side :: LinesOn(next, side) == LinesOn(rows, side)
                + PatchCells(hunkIndex, lines, Span(0, i + 1), Unified, side)
  {
    hide LinesOn, PatchCells, Listed, CodeCell, UnifiedRow, FromHunk, Span, AllFromHunk;
    var row := UnifiedRow(fileIndex, hunkIndex, i, lines[i]);
    UnifiedRowLists(fileIndex, hunkIndex, lines, i);
    FromHunkPush(after, |rows|, row, fileIndex, hunkIndex, lines);
    NextPatchCell(hunkIndex, lines, i, Unified);
    SpanWithin(lines, i);
    SpanWithin(lines, i + 1);
    forall side
      ensures LinesOn(after + [row], side) == LinesOn(rows, side)
              + PatchCells(hunkIndex, lines, Span(0, i + 1), Unified, side)
    {
      LinesOnPush(after, row, side);
    }
  }

  lemma SpanWithin(lines: seq<PatchLine>, n: nat)
    requires n <= |lines|
    ensures Within(Span(0, n), lines)
  {
  }

  lemma NoPatchCells(hunkIndex: nat, lines: seq<PatchLine>)
    ensures forall layout, side :: PatchCells(hunkIndex, lines, Span(0, 0), layout, side) == []
  {
  }

  lemma NextPatchCell(hunkIndex: nat, lines: seq<PatchLine>, i: nat, layout: Layout)
    requires i < |lines|
    ensures forall side :: PatchCells(hunkIndex, lines, Span(0, i + 1), layout, side)
                        == PatchCells(hunkIndex, lines, Span(0, i), layout, side)
                           + if Listed(layout, lines[i], side) then [CodeCell(side, hunkIndex, i, lines[i])] else []
  {
    assert Span(0, i + 1)[..i] == Span(0, i);
  }

  // ---- two columns -------------------------------------------------------

  datatype SplitGroup = Single(index: nat) | Changed(removed: seq<nat>, added: seq<nat>)
  {
    function Indices(): seq<nat> {
      match this
      case Single(index) => [index]
      case Changed(removed, added) => removed + added
    }
  }

  ghost predicate AllOfKind(indices: seq<nat>, lines: seq<PatchLine>, kind: LineKind) {
    forall k :: 0 <= k < |indices| ==> indices[k] < |lines| && lines[indices[k]].kind == kind
  }

  /** A group is a line that is not removed, or a whole run of removed lines with the whole run of added
      lines after it. */
  ghost predicate IsGroup(group: SplitGroup, lines: seq<PatchLine>) {
    match group
    case Single(index) => index < |lines| && lines[index].kind != Removed
    case Changed(removed, added) =>
      && removed != []
      && AllOfKind(removed, lines, Removed) && AllOfKind(added, lines, Added)
      && var after := removed[0] + |removed| + |added|;
         && removed == Span(removed[0], removed[0] + |removed|) && added == Span(removed[0] + |removed|, after)
         && after <= |lines|
         && (after < |lines| ==> lines[after].kind != Added && (added == [] ==> lines[after].kind != Removed))
  }

  ghost function Flattened(groups: seq<SplitGroup>): seq<nat> {
    if groups == [] then [] else Flattened(groups[..|groups| - 1]) + groups[|groups| - 1].Indices()
  }

  lemma FlattenedPush(groups: seq<SplitGroup>, group: SplitGroup)
    ensures Flattened(groups + [group]) == Flattened(groups) + group.Indices()
  {
    assert (groups + [group])[..|groups|] == groups;
  }

  method TakeRun(lines: seq<PatchLine>, from: nat, kind: LineKind) returns (end: nat)
    requires from <= |lines|
    ensures from <= end <= |lines| && forall i :: from <= i < end ==> lines[i].kind == kind
    ensures end < |lines| ==> lines[end].kind != kind
  {
    end := from;
    while end < |lines| && lines[end].kind == kind
      invariant from <= end <= |lines| && forall i :: from <= i < end ==> lines[i].kind == kind
    {
      end := end + 1;
    }
  }

  /** The groups hold the hunk's lines, each once and in order. */
  method SplitGroups(lines: seq<PatchLine>) returns (groups: seq<SplitGroup>)
    ensures Flattened(groups) == Span(0, |lines|)
    ensures forall g :: g in groups ==> IsGroup(g, lines)
  {
    hide IsGroup, Flattened, Span;
    groups := [];
    var index := 0;
    NothingFlattened();
    while index < |lines|
      invariant index <= |lines| && Flattened(groups) == Span(0, index)
      invariant forall g :: g in groups ==> IsGroup(g, lines)
      decreases |lines| - index
    {
      ghost var from := index;
      var group;
      if lines[index].kind != Removed {
        group := Single(index);
        SingleIsGroup(lines, index);
        index := index + 1;
      } else {
        var removedEnd := TakeRun(lines, index, Removed);
        var addedEnd := TakeRun(lines, removedEnd, Added);
        RunIsGroup(lines, index, removedEnd, addedEnd);
        group := Changed(Span(index, removedEnd), Span(removedEnd, addedEnd));
        index := addedEnd;
      }
      FlattenedPush(groups, group);
      SpanJoin(0, from, index);
      groups := groups + [group];
    }
  }

  lemma NothingFlattened()
    ensures Flattened([]) == Span(0, 0) == []
  {
  }

  lemma SingleIsGroup(lines: seq<PatchLine>, index: nat)
    requires index < |lines| && lines[index].kind != Removed
    ensures IsGroup(Single(index), lines) && Single(index).Indices() == Span(index, index + 1)
  {
  }

  lemma RunIsGroup(lines: seq<PatchLine>, start: nat, middle: nat, end: nat)
    requires start < middle <= end <= |lines|
    requires forall i :: start <= i < middle ==> lines[i].kind == Removed
    requires forall i :: middle <= i < end ==> lines[i].kind == Added
    requires middle < |lines| ==> lines[middle].kind != Removed
    requires end < |lines| ==> lines[end].kind != Added
    ensures IsGroup(Changed(Span(start, middle), Span(middle, end)), lines)
    ensures Changed(Span(start, middle), Span(middle, end)).Indices() == Span(start, end)
  {
    SpanJoin(start, middle, end);
  }

  // ---- pairing removed and added lines -----------------------------------

  datatype DiffOp =
    | Equal(oldIndex: nat, newIndex: nat, length: nat)
    | Delete(oldIndex: nat, oldLength: nat)
    | Insert(newIndex: nat, newLength: nat)
    | Replace(oldIndex: nat, oldLength: nat, newIndex: nat, newLength: nat)
  {
    function OldLength(): nat {
      match this
      case Equal(_, _, length) => length
      case Delete(_, length) => length
      case Insert(_, _) => 0
      case Replace(_, length, _, _) => length
    }

    function NewLength(): nat {
      match this
      case Equal(_, _, length) => length
      case Delete(_, _) => 0
      case Insert(_, length) => length
      case Replace(_, _, _, length) => length
    }

    predicate StartsAt(before: nat, after: nat) {
      match this
      case Equal(oldIndex, newIndex, _) => oldIndex == before && newIndex == after
      case Delete(oldIndex, _) => oldIndex == before
      case Insert(newIndex, _) => newIndex == after
      case Replace(oldIndex, _, newIndex, _) => oldIndex == before && newIndex == after
    }

    /** The removed lines the operation is about, as their own indices say. */
    function OldStretch(removed: seq<nat>): seq<nat>
      requires !Insert? ==> oldIndex + OldLength() <= |removed|
    {
      if Insert? then [] else removed[oldIndex..oldIndex + OldLength()]
    }

    function NewStretch(added: seq<nat>): seq<nat>
      requires !Delete? ==> newIndex + NewLength() <= |added|
    {
      if Delete? then [] else added[newIndex..newIndex + NewLength()]
    }
  }

  function OldReach(ops: seq<DiffOp>): nat {
    if ops == [] then 0 else OldReach(ops[..|ops| - 1]) + ops[|ops| - 1].OldLength()
  }

  function NewReach(ops: seq<DiffOp>): nat {
    if ops == [] then 0 else NewReach(ops[..|ops| - 1]) + ops[|ops| - 1].NewLength()
  }

  /** What the text differ promises: its operations cover both texts in order. */
  ghost predicate Tiles(ops: seq<DiffOp>, oldLength: nat, newLength: nat) {
    && (forall k :: 0 <= k < |ops| ==> ops[k].StartsAt(OldReach(ops[..k]), NewReach(ops[..k])))
    && OldReach(ops) == oldLength && NewReach(ops) == newLength
  }

  type Differ = (seq<Source>, seq<Source>) -> seq<DiffOp>

  ghost predicate DifferContract(differ: Differ) {
    forall before, after :: Tiles(differ(before, after), |before|, |after|)
  }

  datatype Pair = Pair(left: Option<nat>, right: Option<nat>)

  ghost function Lefts(pairs: seq<Pair>): seq<nat> {
    if pairs == [] then []
    else Lefts(pairs[..|pairs| - 1]) + if pairs[|pairs| - 1].left.Some? then [pairs[|pairs| - 1].left.value] else []
  }

  ghost function Rights(pairs: seq<Pair>): seq<nat> {
    if pairs == [] then []
    else Rights(pairs[..|pairs| - 1]) + if pairs[|pairs| - 1].right.Some? then [pairs[|pairs| - 1].right.value] else []
  }

  lemma PairPush(pairs: seq<Pair>, pair: Pair)
    ensures Lefts(pairs + [pair]) == Lefts(pairs) + if pair.left.Some? then [pair.left.value] else []
    ensures Rights(pairs + [pair]) == Rights(pairs) + if pair.right.Some? then [pair.right.value] else []
  {
    assert (pairs + [pair])[..|pairs|] == pairs;
  }

  lemma {:induction false} PairsConcat(a: seq<Pair>, b: seq<Pair>)
    ensures Lefts(a + b) == Lefts(a) + Lefts(b) && Rights(a + b) == Rights(a) + Rights(b)
    decreases |b|
  {
    if b == [] {
      assert a + b == a;
    } else {
      assert (a + b)[..|a + b| - 1] == a + b[..|b| - 1];
      PairsConcat(a, b[..|b| - 1]);
    }
  }

  ghost predicate NoneEmpty(pairs: seq<Pair>) {
    forall k :: 0 <= k < |pairs| ==> pairs[k].left.Some? || pairs[k].right.Some?
  }

  /** The pairs begin with the lines of the two stretches that have a counterpart. */
  ghost predicate Facing(pairs: seq<Pair>, removed: seq<nat>, added: seq<nat>) {
    forall k :: 0 <= k < |removed| && k < |added| ==> k < |pairs| && pairs[k] == Pair(Some(removed[k]), Some(added[k]))
  }

  lemma NoPairs()
    ensures Lefts([]) == [] && Rights([]) == []
  {
  }

  /** Puts two stretches beside each other, the longer one's rest alone. */
  method Align(removed: seq<nat>, added: seq<nat>) returns (pairs: seq<Pair>)
    ensures Lefts(pairs) == removed && Rights(pairs) == added && NoneEmpty(pairs)
    ensures Facing(pairs, removed, added)
  {
    hide Lefts, Rights;
    var paired := Min(|removed|, |added|);
    pairs := [];
    NoPairs();
    for k := 0 to paired
      invariant |pairs| == k && NoneEmpty(pairs)
      invariant Lefts(pairs) == removed[..k] && Rights(pairs) == added[..k]
      invariant Facing(pairs, removed[..k], added[..k])
    {
      PairPush(pairs, Pair(Some(removed[k]), Some(added[k])));
      pairs := pairs + [Pair(Some(removed[k]), Some(added[k]))];
    }
    ghost var both := pairs;
    for k := paired to |removed|
      invariant both <= pairs && NoneEmpty(pairs)
      invariant Lefts(pairs) == removed[..k] && Rights(pairs) == added[..paired]
    {
      hide Facing;
      PairPush(pairs, Pair(Some(removed[k]), None));
      pairs := pairs + [Pair(Some(removed[k]), None)];
    }
    assert removed[..|removed|] == removed;
    for k := paired to |added|
      invariant both <= pairs && NoneEmpty(pairs)
      invariant Lefts(pairs) == removed && Rights(pairs) == added[..k]
    {
      hide Facing;
      PairPush(pairs, Pair(None, Some(added[k])));
      pairs := pairs + [Pair(None, Some(added[k]))];
    }
    assert added[..|added|] == added;
  }

  function Texts(lines: seq<PatchLine>, indices: seq<nat>): (r: seq<Source>)
    requires forall k :: 0 <= k < |indices| ==> indices[k] < |lines|
    ensures |r| == |indices|
  {
    seq(|indices|, k requires 0 <= k < |indices| => lines[indices[k]].text)
  }

  ghost predicate AllTogether(pairs: seq<Pair>, left: seq<nat>, right: seq<nat>) {
    forall k :: 0 <= k < |left| && k < |right| ==> Pair(Some(left[k]), Some(right[k])) in pairs
  }

  /** The stretches an operation calls equal share rows, line by line. */
  ghost predicate Beside(pairs: seq<Pair>, removed: seq<nat>, added: seq<nat>, op: DiffOp) {
    op.Equal? ==>
      && op.oldIndex + op.length <= |removed| && op.newIndex + op.length <= |added|
      && AllTogether(pairs, op.OldStretch(removed), op.NewStretch(added))
  }

  lemma {:induction false} ReachGrows(ops: seq<DiffOp>, i: nat)
    requires i <= |ops|
    ensures OldReach(ops[..i]) <= OldReach(ops) && NewReach(ops[..i]) <= NewReach(ops)
  {
    if i == |ops| {
      assert ops[..i] == ops;
    } else {
      assert ops[..|ops| - 1][..i] == ops[..i];
      ReachGrows(ops[..|ops| - 1], i);
    }
  }

  lemma ReachAdvances(ops: seq<DiffOp>, i: nat)
    requires i < |ops|
    ensures OldReach(ops[..i + 1]) == OldReach(ops[..i]) + ops[i].OldLength() <= OldReach(ops)
    ensures NewReach(ops[..i + 1]) == NewReach(ops[..i]) + ops[i].NewLength() <= NewReach(ops)
  {
    assert ops[..i + 1][..i] == ops[..i];
    ReachGrows(ops, i + 1);
  }

  lemma AlignedEquals(pairs: seq<Pair>, more: seq<Pair>, left: seq<nat>, right: seq<nat>)
    requires Facing(more, left, right)
    ensures AllTogether(pairs + more, left, right)
  {
    forall k | 0 <= k < |left| && k < |right|
      ensures Pair(Some(left[k]), Some(right[k])) in pairs + more
    {
      assert more[k] in more;
    }
  }

  lemma BesideStays(pairs: seq<Pair>, after: seq<Pair>, removed: seq<nat>, added: seq<nat>, op: DiffOp)
    requires pairs <= after && Beside(pairs, removed, added, op)
    ensures Beside(after, removed, added, op)
  {
    assert forall p :: p in pairs ==> p in after;
  }

  ghost predicate AllBeside(pairs: seq<Pair>, removed: seq<nat>, added: seq<nat>, ops: seq<DiffOp>) {
    forall j :: 0 <= j < |ops| ==> Beside(pairs, removed, added, ops[j])
  }

  lemma AllBesidePush(pairs: seq<Pair>, more: seq<Pair>, removed: seq<nat>, added: seq<nat>, ops: seq<DiffOp>, i: nat)
    requires i < |ops| && AllBeside(pairs, removed, added, ops[..i]) && Beside(pairs + more, removed, added, ops[i])
    ensures AllBeside(pairs + more, removed, added, ops[..i + 1])
  {
    hide Beside;
    var done := ops[..i + 1];
    forall j | 0 <= j < |done|
      ensures Beside(pairs + more, removed, added, done[j])
    {
      if j < i {
        assert ops[..i][j] == ops[j];
        BesideStays(pairs, pairs + more, removed, added, ops[j]);
      }
    }
  }

  /** The reach of the first `i` operations, and what they have paired. */
  ghost predicate PairedSoFar(pairs: seq<Pair>, removed: seq<nat>, added: seq<nat>, ops: seq<DiffOp>) {
    && OldReach(ops) <= |removed| && NewReach(ops) <= |added|
    && Lefts(pairs) == removed[..OldReach(ops)] && Rights(pairs) == added[..NewReach(ops)]
    && NoneEmpty(pairs) && AllBeside(pairs, removed, added, ops)
  }

  /** The next operation is about the lines just after those covered. */
  lemma StretchIsNext(ops: seq<DiffOp>, i: nat, removed: seq<nat>, added: seq<nat>)
    requires i < |ops| && Tiles(ops, |removed|, |added|)
    ensures !ops[i].Insert? ==> ops[i].oldIndex + ops[i].OldLength() <= |removed|
    ensures !ops[i].Delete? ==> ops[i].newIndex + ops[i].NewLength() <= |added|
    ensures OldReach(ops[..i]) <= OldReach(ops[..i + 1]) <= |removed|
    ensures NewReach(ops[..i]) <= NewReach(ops[..i + 1]) <= |added|
    ensures removed[..OldReach(ops[..i])] + ops[i].OldStretch(removed) == removed[..OldReach(ops[..i + 1])]
    ensures added[..NewReach(ops[..i])] + ops[i].NewStretch(added) == added[..NewReach(ops[..i + 1])]
  {
    hide OldReach, NewReach;
    ReachAdvances(ops, i);
    assert ops[i].StartsAt(OldReach(ops[..i]), NewReach(ops[..i]));
  }

  lemma NoneEmptyConcat(a: seq<Pair>, b: seq<Pair>)
    requires NoneEmpty(a) && NoneEmpty(b)
    ensures NoneEmpty(a + b)
  {
  }

  lemma PairedStep(pairs: seq<Pair>, more: seq<Pair>, removed: seq<nat>, added: seq<nat>, ops: seq<DiffOp>, i: nat)
    requires i < |ops| && Tiles(ops, |removed|, |added|) && PairedSoFar(pairs, removed, added, ops[..i])
    requires !ops[i].Insert? ==> ops[i].oldIndex + ops[i].OldLength() <= |removed|
    requires !ops[i].Delete? ==> ops[i].newIndex + ops[i].NewLength() <= |added|
    requires Lefts(more) == ops[i].OldStretch(removed) && Rights(more) == ops[i].NewStretch(added) && NoneEmpty(more)
    requires Facing(more, ops[i].OldStretch(removed), ops[i].NewStretch(added))
    ensures PairedSoFar(pairs + more, removed, added, ops[..i + 1])
  {
    hide Lefts, Rights, OldReach, NewReach, AllBeside, NoneEmpty, Facing, AllTogether, DiffOp.OldStretch,
         DiffOp.NewStretch, Tiles;
    StretchIsNext(ops, i, removed, added);
    PairsConcat(pairs, more);
    NoneEmptyConcat(pairs, more);
    AlignedEquals(pairs, more, ops[i].OldStretch(removed), ops[i].NewStretch(added));
    AllBesidePush(pairs, more, removed, added, ops, i);
  }

  lemma NothingPaired(removed: seq<nat>, added: seq<nat>)
    ensures PairedSoFar([], removed, added, [])
  {
  }

  /** Every removed line comes once on the left and every added line once on the right, both in order,
      and lines the differ found equal share a row. */
  method PairChangedBlock(differ: Differ, lines: seq<PatchLine>, removed: seq<nat>, added: seq<nat>)
    returns (pairs: seq<Pair>)
    requires DifferContract(differ)
    requires Within(removed, lines) && Within(added, lines)
    ensures Lefts(pairs) == removed && Rights(pairs) == added && NoneEmpty(pairs)
    ensures AllBeside(pairs, removed, added, differ(Texts(lines, removed), Texts(lines, added)))
  {
    var ops := differ(Texts(lines, removed), Texts(lines, added));
    assert Tiles(ops, |removed|, |added|);
    pairs := [];
    NothingPaired(removed, added);
    for i := 0 to |ops|
      invariant PairedSoFar(pairs, removed, added, ops[..i])
    {
      hide PairedSoFar, Lefts, Rights, NoneEmpty, Facing, Tiles;
      StretchIsNext(ops, i, removed, added);
      var more := Align(ops[i].OldStretch(removed), ops[i].NewStretch(added));
      PairedStep(pairs, more, removed, added, ops, i);
      pairs := pairs + more;
    }
    assert ops[..|ops|] == ops && removed[..|removed|] == removed && added[..|added|] == added;
  }

  // ---- rows of two columns -----------------------------------------------

  /** A cell of a split row: none when the line has no number on its side. */
  function SplitCell(hunkIndex: nat, lines: seq<PatchLine>, index: Option<nat>, side: Side): Option<Cell>
    requires index.Some? ==> index.value < |lines|
  {
    if index.None? || lines[index.value].Number(side).None? then None
    else Some(CodeCell(side, hunkIndex, index.value, lines[index.value]))
  }

  function SplitCodeRow(fileIndex: nat, hunkIndex: nat, lines: seq<PatchLine>, left: Option<nat>,
                        right: Option<nat>): Row
    requires (left.Some? ==> left.value < |lines|) && (right.Some? ==> right.value < |lines|)
  {
    Row(Code, fileIndex, Some(hunkIndex), SplitCell(hunkIndex, lines, left, Old),
        SplitCell(hunkIndex, lines, right, New))
  }

  /** Which lines a split row may put together. */
  ghost predicate MayShare(lines: seq<PatchLine>, left: Option<nat>, right: Option<nat>) {
    && (left.Some? ==> left.value < |lines| && lines[left.value].kind != Added)
    && (right.Some? ==> right.value < |lines| && lines[right.value].kind != Removed)
    && (left.Some? && right.Some? && left != right ==>
        lines[left.value].kind == Removed && lines[right.value].kind == Added)
  }

  lemma SplitRowLists(fileIndex: nat, hunkIndex: nat, lines: seq<PatchLine>, left: Option<nat>, right: Option<nat>)
    requires MayShare(lines, left, right)
    ensures var row := SplitCodeRow(fileIndex, hunkIndex, lines, left, right);
            && FromHunk(row, fileIndex, hunkIndex, lines)
            && row.Lines(Old) == PatchCells(hunkIndex, lines, if left.Some? then [left.value] else [], Split, Old)
            && row.Lines(New) == PatchCells(hunkIndex, lines, if right.Some? then [right.value] else [], Split, New)
  {
    OnePatchCell(hunkIndex, lines, if left.Some? then [left.value] else [], Old);
    OnePatchCell(hunkIndex, lines, if right.Some? then [right.value] else [], New);
  }

  lemma OnePatchCell(hunkIndex: nat, lines: seq<PatchLine>, indices: seq<nat>, side: Side)
    requires |indices| <= 1 && Within(indices, lines)
    ensures PatchCells(hunkIndex, lines, indices, Split, side)
         == if indices != [] && Listed(Split, lines[indices[0]], side)
             then [CodeCell(side, hunkIndex, indices[0], lines[indices[0]])] else []
  {
    if indices != [] {
      assert indices[..0] == [];
    }
  }

  /** What was appended lists these lines on the left and these on the right. */
  ghost predicate Lists(rows: seq<Row>, after: seq<Row>, hunkIndex: nat, lines: seq<PatchLine>, left: seq<nat>,
                        right: seq<nat>)
  {
    && Within(left, lines) && Within(right, lines)
    && LinesOn(after, Old) == LinesOn(rows, Old) + PatchCells(hunkIndex, lines, left, Split, Old)
    && LinesOn(after, New) == LinesOn(rows, New) + PatchCells(hunkIndex, lines, right, Split, New)
  }

  lemma ListsJoin(a: seq<Row>, b: seq<Row>, c: seq<Row>, hunkIndex: nat, lines: seq<PatchLine>,
                  left: seq<nat>, right: seq<nat>, moreLeft: seq<nat>, moreRight: seq<nat>)
    requires Lists(a, b, hunkIndex, lines, left, right) && Lists(b, c, hunkIndex, lines, moreLeft, moreRight)
    ensures Lists(a, c, hunkIndex, lines, left + moreLeft, right + moreRight)
  {
    hide LinesOn, PatchCells;
    PatchCellsConcat(hunkIndex, lines, left, moreLeft, Split, Old);
    PatchCellsConcat(hunkIndex, lines, right, moreRight, Split, New);
  }

  lemma ListsNothing(rows: seq<Row>, hunkIndex: nat, lines: seq<PatchLine>)
    ensures Lists(rows, rows, hunkIndex, lines, [], [])
  {
  }

  function AsSeq(index: Option<nat>): seq<nat> {
    if index.Some? then [index.value] else []
  }

  /** Appends one split row and the note that goes with a line without a newline. */
  method AppendSplitRow(rows: seq<Row>, fileIndex: nat, hunkIndex: nat, lines: seq<PatchLine>, left: Option<nat>,
                        right: Option<nat>, noted: Option<nat>, ghost from: nat)
    returns (after: seq<Row>)
    requires MayShare(lines, left, right) && (noted.Some? ==> noted.value < |lines|)
    requires AllFromHunk(rows, from, fileIndex, hunkIndex, lines)
    ensures rows <= after && AllFromHunk(after, from, fileIndex, hunkIndex, lines)
    ensures Lists(rows, after, hunkIndex, lines, AsSeq(left), AsSeq(right))
  {
    hide LinesOn, PatchCells, FromHunk, SplitCodeRow;
    SplitRowLists(fileIndex, hunkIndex, lines, left, right);
    var row := SplitCodeRow(fileIndex, hunkIndex, lines, left, right);
    LinesOnPush(rows, row, Old);
    LinesOnPush(rows, row, New);
    FromHunkPush(rows, from, row, fileIndex, hunkIndex, lines);
    after := rows + [row];
    if noted.Some? {
      after := AppendNoNewline(after, fileIndex, hunkIndex, lines[noted.value], from, lines);
    }
  }

  ghost predicate AllMayShare(lines: seq<PatchLine>, pairs: seq<Pair>) {
    forall k :: 0 <= k < |pairs| ==> MayShare(lines, pairs[k].left, pairs[k].right)
  }

  method AppendPairs(rows: seq<Row>, fileIndex: nat, hunkIndex: nat, lines: seq<PatchLine>, pairs: seq<Pair>,
                     ghost from: nat)
    returns (after: seq<Row>)
    requires AllMayShare(lines, pairs) && AllFromHunk(rows, from, fileIndex, hunkIndex, lines)
    ensures rows <= after && AllFromHunk(after, from, fileIndex, hunkIndex, lines)
    ensures Lists(rows, after, hunkIndex, lines, Lefts(pairs), Rights(pairs))
  {
    hide Lists, FromHunk, AllFromHunk, Lefts, Rights;
    after := rows;
    ListsNothing(rows, hunkIndex, lines);
    NoPairs();
    for k := 0 to |pairs|
      invariant rows <= after && AllFromHunk(after, from, fileIndex, hunkIndex, lines)
      invariant Lists(rows, after, hunkIndex, lines, Lefts(pairs[..k]), Rights(pairs[..k]))
    {
      var pair := pairs[k];
      assert MayShare(lines, pair.left, pair.right);
      var noted := if pair.left.Some? && lines[pair.left.value].noNewline then pair.left
      else if pair.right.Some? && lines[pair.right.value].noNewline then pair.right else None;
      var more := AppendSplitRow(after, fileIndex, hunkIndex, lines, pair.left, pair.right, noted, from);
      assert pairs[..k + 1] == pairs[..k] + [pair];
      PairPush(pairs[..k], pair);
      ListsJoin(rows, after, more, hunkIndex, lines, Lefts(pairs[..k]), Rights(pairs[..k]), AsSeq(pair.left),
                AsSeq(pair.right));
      after := more;
    }
    assert pairs[..|pairs|] == pairs;
  }

  /** Lines of one kind list nothing on the other side. */
  lemma {:induction false} OtherSideListsNothing(hunkIndex: nat, lines: seq<PatchLine>, indices: seq<nat>, side: Side)
    requires AllOfKind(indices, lines, if side == Old then Added else Removed)
    ensures Within(indices, lines) && PatchCells(hunkIndex, lines, indices, Split, side) == []
  {
    if indices != [] {
      OtherSideListsNothing(hunkIndex, lines, indices[..|indices| - 1], side);
    }
  }

  method AppendGroup(rows: seq<Row>, differ: Differ, fileIndex: nat, hunkIndex: nat, lines: seq<PatchLine>,
                     group: SplitGroup, ghost from: nat)
    returns (after: seq<Row>)
    requires DifferContract(differ) && IsGroup(group, lines)
    requires AllFromHunk(rows, from, fileIndex, hunkIndex, lines)
    ensures rows <= after && AllFromHunk(after, from, fileIndex, hunkIndex, lines)
    ensures Lists(rows, after, hunkIndex, lines, group.Indices(), group.Indices())
  {
    hide Lists, AllFromHunk;
    match group
    case Single(index) =>
      var left := if lines[index].kind == Added then None else Some(index);
      after := AppendSplitRow(rows, fileIndex, hunkIndex, lines, left, Some(index), Some(index), from);
      SingleLists(rows, after, hunkIndex, lines, index);
    case Changed(removed, added) =>
      GroupWithin(group, lines);
      var pairs := PairChangedBlock(differ, lines, removed, added);
      ChangedPairsMayShare(lines, removed, added, pairs);
      after := AppendPairs(rows, fileIndex, hunkIndex, lines, pairs, from);
      ChangedLists(rows, after, hunkIndex, lines, removed, added);
  }

  lemma SingleLists(rows: seq<Row>, after: seq<Row>, hunkIndex: nat, lines: seq<PatchLine>, index: nat)
    requires index < |lines|
    requires Lists(rows, after, hunkIndex, lines, AsSeq(if lines[index].kind == Added then None else Some(index)),
                   [index])
    ensures Lists(rows, after, hunkIndex, lines, [index], [index])
  {
    hide LinesOn, CodeCell;
    OnePatchCell(hunkIndex, lines, [index], Old);
    OnePatchCell(hunkIndex, lines, [], Old);
  }

  lemma ChangedLists(rows: seq<Row>, after: seq<Row>, hunkIndex: nat, lines: seq<PatchLine>, removed: seq<nat>,
                     added: seq<nat>)
    requires IsGroup(Changed(removed, added), lines) && Lists(rows, after, hunkIndex, lines, removed, added)
    ensures Lists(rows, after, hunkIndex, lines, removed + added, removed + added)
  {
    hide LinesOn, PatchCells;
    OtherSideListsNothing(hunkIndex, lines, removed, New);
    OtherSideListsNothing(hunkIndex, lines, added, Old);
    PatchCellsConcat(hunkIndex, lines, removed, added, Split, Old);
    PatchCellsConcat(hunkIndex, lines, removed, added, Split, New);
  }

  lemma GroupWithin(group: SplitGroup, lines: seq<PatchLine>)
    requires IsGroup(group, lines) && group.Changed?
    ensures Within(group.removed, lines) && Within(group.added, lines)
  {
  }

  lemma {:induction false} PairsComeFromSides(pairs: seq<Pair>, k: nat)
    requires k < |pairs|
    ensures pairs[k].left.Some? ==> pairs[k].left.value in Lefts(pairs)
    ensures pairs[k].right.Some? ==> pairs[k].right.value in Rights(pairs)
  {
    if k < |pairs| - 1 {
      PairsComeFromSides(pairs[..|pairs| - 1], k);
    }
  }

  lemma ChangedPairsMayShare(lines: seq<PatchLine>, removed: seq<nat>, added: seq<nat>, pairs: seq<Pair>)
    requires IsGroup(Changed(removed, added), lines) && Lefts(pairs) == removed && Rights(pairs) == added
    ensures AllMayShare(lines, pairs)
  {
    hide Lefts, Rights;
    forall k | 0 <= k < |pairs|
      ensures MayShare(lines, pairs[k].left, pairs[k].right)
    {
      PairsComeFromSides(pairs, k);
    }
  }

  /** Two columns: the left lists every line that is not added, the right every line that is not
      removed, each once and in order. */
  method AppendSplitRows(rows: seq<Row>, differ: Differ, fileIndex: nat, hunkIndex: nat, lines: seq<PatchLine>)
    returns (after: seq<Row>)
    requires DifferContract(differ)
    ensures rows <= after && AllFromHunk(after, |rows|, fileIndex, hunkIndex, lines)
    ensures forall side :: LinesOn(after, side)
                        == LinesOn(rows, side) + PatchCells(hunkIndex, lines, Span(0, |lines|), Split, side)
  {
    hide Lists, AllFromHunk, Flattened, IsGroup, SplitGroup.Indices, LinesOn, PatchCells, Tiles;
    after := rows;
    NothingFromHunk(rows, fileIndex, hunkIndex, lines);
    var groups := SplitGroups(lines);
    NothingFlattened();
    ListsNothing(rows, hunkIndex, lines);
    for k := 0 to |groups|
      invariant rows <= after && AllFromHunk(after, |rows|, fileIndex, hunkIndex, lines)
      invariant Lists(rows, after, hunkIndex, lines, Flattened(groups[..k]), Flattened(groups[..k]))
    {
      assert groups[..k + 1] == groups[..k] + [groups[k]];
      FlattenedPush(groups[..k], groups[k]);
      var more := AppendGroup(after, differ, fileIndex, hunkIndex, lines, groups[k], |rows|);
      ListsJoin(rows, after, more, hunkIndex, lines, Flattened(groups[..k]), Flattened(groups[..k]),
                groups[k].Indices(), groups[k].Indices());
      after := more;
    }
    assert groups[..|groups|] == groups;
    BothSides(rows, after, hunkIndex, lines);
  }

  lemma NothingFromHunk(rows: seq<Row>, fileIndex: nat, hunkIndex: nat, lines: seq<PatchLine>)
    ensures AllFromHunk(rows, |rows|, fileIndex, hunkIndex, lines)
  {
  }

  lemma BothSides(rows: seq<Row>, after: seq<Row>, hunkIndex: nat, lines: seq<PatchLine>)
    requires Lists(rows, after, hunkIndex, lines, Span(0, |lines|), Span(0, |lines|))
    ensures forall side :: LinesOn(after, side)
                        == LinesOn(rows, side) + PatchCells(hunkIndex, lines, Span(0, |lines|), Split, side)
  {
    hide LinesOn, PatchCells;
    forall side
      ensures LinesOn(after, side) == LinesOn(rows, side) + PatchCells(hunkIndex, lines, Span(0, |lines|), Split, side)
    {
      if side == Old {
      }
    }
  }
}
