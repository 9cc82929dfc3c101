/**
 Hunks derived from two complete texts: the changes between them are numbered, and those near a change
 are cut out with three lines of context.
 */
module PatchDerivation {
  import opened Bytes
  import opened SourceDocuments
  import opened LineTokens
  import opened Hunks

  datatype Tag = Same | Dropped | Gained
  {
    function Kind(): LineKind {
      match this
      case Same => Context
      case Dropped => Removed
      case Gained => Added
    }
  }

  /** One line of the script that turns the old text into the new one, with its line ending. */
  datatype Change = Change(tag: Tag, value: Source)

  const CONTEXT: nat := 3

  // ---- numbering ---------------------------------------------------------

  ghost predicate Scripted(lines: seq<PatchLine>, changes: seq<Change>) {
    && |lines| == |changes|
    && (forall i :: 0 <= i < |lines| ==>
        lines[i].kind == changes[i].tag.Kind() && lines[i].text == StripLineEnding(changes[i].value))
    && NumberedFrom(lines, Old, 1) && NumberedFrom(lines, New, 1)
  }

  method NumberChanges(changes: seq<Change>) returns (lines: seq<PatchLine>)
    ensures Scripted(lines, changes) && forall i :: 0 <= i < |lines| ==> !lines[i].noNewline
  {
    hide NumberedFrom, CountOn, StripLineEnding;
    lines := [];
    var oldLine, newLine := 0, 0;
    NothingNumbered(1, 1);
    for i := 0 to |changes|
      invariant |lines| == i && oldLine == CountOn(lines, Old) && newLine == CountOn(lines, New)
      invariant NumberedFrom(lines, Old, 1) && NumberedFrom(lines, New, 1)
      invariant forall j :: 0 <= j < i ==>
                lines[j].kind == changes[j].tag.Kind() && lines[j].text == StripLineEnding(changes[j].value)
      invariant forall j :: 0 <= j < i ==> !lines[j].noNewline
    {
      var text := StripLineEnding(changes[i].value);
      var line;
      match changes[i].tag {
        case Same =>
          oldLine, newLine := oldLine + 1, newLine + 1;
          line := PatchLine(Context, text, Some(oldLine), Some(newLine), false);
        case Dropped =>
          oldLine := oldLine + 1;
          line := PatchLine(Removed, text, Some(oldLine), None, false);
        case Gained =>
          newLine := newLine + 1;
          line := PatchLine(Added, text, None, Some(newLine), false);
      }
      NumberedPush(lines, line, Old, 1);
      NumberedPush(lines, line, New, 1);
      lines := lines + [line];
    }
  }

  // ---- grouping ----------------------------------------------------------

  /** The first and the last changed line of a hunk to be. */
  datatype Group = Group(first: nat, last: nat)
  {
    function Start(): nat { Monus(first, CONTEXT) }

    function End(length: nat): nat { Min(last + CONTEXT + 1, length) }

    predicate Holds(i: nat) { first <= i <= last }
  }

  predicate Changes(line: PatchLine) { line.kind != Context }

  /** The groups are apart and hold every changed line before `done`. */
  ghost predicate IsGrouping(groups: seq<Group>, lines: seq<PatchLine>, done: nat)
    requires done <= |lines|
  {
    && (forall j :: 0 <= j < |groups| ==> groups[j].first <= groups[j].last < done)
    && (forall i, j :: 0 <= i < j < |groups| ==> groups[i].last + CONTEXT + 1 < groups[j].Start())
    && (forall i :: 0 <= i < done && Changes(lines[i]) ==> InSomeGroup(groups, i))
  }

  ghost predicate InSomeGroup(groups: seq<Group>, i: nat) {
    exists j :: 0 <= j < |groups| && groups[j].Holds(i)
  }

  ghost predicate Pads(ranges: seq<Range>, groups: seq<Group>, length: nat) {
    |ranges| == |groups| && forall j :: 0 <= j < |groups| ==>
        ranges[j] == Range(groups[j].Start(), groups[j].End(length))
  }

  /** Cuts out every changed line with its context; stretches of context that touch are one range. */
  method GroupRanges(lines: seq<PatchLine>) returns (ranges: seq<Range>, ghost groups: seq<Group>)
    ensures IsGrouping(groups, lines, |lines|) && Pads(ranges, groups, |lines|)
  {
    ranges, groups := [], [];
    for index := 0 to |lines|
      invariant IsGrouping(groups, lines, index) && Pads(ranges, groups, |lines|)
    {
      hide InSomeGroup;
      if lines[index].kind != Context {
        var start, end := Monus(index, CONTEXT), Min(index + CONTEXT + 1, |lines|);
        if ranges != [] && start <= ranges[|ranges| - 1].end {
          ghost var last := |groups| - 1;
          LastGrows(groups, lines, index);
          groups := groups[..last] + [Group(groups[last].first, index)];
          ranges := ranges[..|ranges| - 1] + [Range(ranges[|ranges| - 1].start, Max(ranges[|ranges| - 1].end, end))];
        } else {
          GroupAdded(groups, lines, index);
          groups := groups + [Group(index, index)];
          ranges := ranges + [Range(start, end)];
        }
      } else {
        assert !Changes(lines[index]);
      }
    }
  }

  lemma LastGrows(groups: seq<Group>, lines: seq<PatchLine>, index: nat)
    requires groups != [] && index < |lines| && IsGrouping(groups, lines, index)
    ensures IsGrouping(groups[..|groups| - 1] + [Group(groups[|groups| - 1].first, index)], lines, index + 1)
  {
    var n := |groups| - 1;
    var after := groups[..n] + [Group(groups[n].first, index)];
    forall i | 0 <= i < index + 1 && Changes(lines[i])
      ensures InSomeGroup(after, i)
    {
      if i < index {
        assert InSomeGroup(groups, i);
        var j :| 0 <= j < |groups| && groups[j].Holds(i);
        assert after[j].Holds(i);
      } else {
        assert after[n].Holds(i);
      }
    }
  }

  lemma GroupAdded(groups: seq<Group>, lines: seq<PatchLine>, index: nat)
    requires index < |lines| && IsGrouping(groups, lines, index)
    requires groups != [] ==> groups[|groups| - 1].last + CONTEXT + 1 < Monus(index, CONTEXT)
    ensures IsGrouping(groups + [Group(index, index)], lines, index + 1)
  {
    var after := groups + [Group(index, index)];
    forall i, j | 0 <= i < j < |after|
      ensures after[i].last + CONTEXT + 1 < after[j].Start()
    {
      if j == |groups| && i < |groups| - 1 {
        assert groups[i].last + CONTEXT + 1 < groups[|groups| - 1].Start();
      }
    }
    forall i | 0 <= i < index + 1 && Changes(lines[i])
      ensures InSomeGroup(after, i)
    {
      if i < index {
        assert InSomeGroup(groups, i);
        var j :| 0 <= j < |groups| && groups[j].Holds(i);
        assert after[j].Holds(i);
      } else {
        assert after[|groups|].Holds(i);
      }
    }
  }

  /** Where the lines before group `j` begin: after the group before it. */
  function GapStart(groups: seq<Group>, j: nat, length: nat): nat
    requires j <= |groups|
  {
    if j == 0 then 0 else groups[j - 1].End(length)
  }

  function GapEnd(groups: seq<Group>, j: nat, length: nat): nat
    requires j <= |groups|
  {
    if j == |groups| then length else groups[j].Start()
  }

  /** Lines outside the groups are context: between them, and in their own margins. */
  lemma OutsideIsContext(groups: seq<Group>, lines: seq<PatchLine>, j: nat, i: nat)
    requires IsGrouping(groups, lines, |lines|) && j <= |groups| && i < |lines|
    requires j > 0 ==> groups[j - 1].last < i
    requires j < |groups| ==> i < groups[j].first
    ensures lines[i].kind == Context
  {
    forall k | 0 <= k < |groups|
      ensures !groups[k].Holds(i)
    {
      if k < j - 1 {
        assert groups[k].last + CONTEXT + 1 < groups[j - 1].Start();
      }
      if k > j {
        assert groups[j].last + CONTEXT + 1 < groups[k].Start();
      }
    }
    assert Changes(lines[i]) ==> InSomeGroup(groups, i);
  }

  lemma GapsApart(groups: seq<Group>, lines: seq<PatchLine>, j: nat)
    requires IsGrouping(groups, lines, |lines|) && j <= |groups|
    ensures GapStart(groups, j, |lines|) <= GapEnd(groups, j, |lines|) <= |lines|
    ensures j < |groups| ==> groups[j].Start() < groups[j].End(|lines|) <= |lines|
    ensures forall i :: GapStart(groups, j, |lines|) <= i < GapEnd(groups, j, |lines|) ==> lines[i].kind == Context
  {
    if 0 < j < |groups| {
      assert groups[j - 1].last + CONTEXT + 1 < groups[j].Start();
    }
    forall i | GapStart(groups, j, |lines|) <= i < GapEnd(groups, j, |lines|)
      ensures lines[i].kind == Context
    {
      OutsideIsContext(groups, lines, j, i);
    }
  }

  // ---- hunks -------------------------------------------------------------

  /** The number of the first line on a side, or none. */
  function FirstNumber(lines: seq<PatchLine>, side: Side): nat {
    if lines == [] then 0
    else if lines[0].Number(side).Some? then lines[0].Number(side).value
    else FirstNumber(lines[1..], side)
  }

  function NumberedCount(lines: seq<PatchLine>, side: Side): nat {
    if lines == [] then 0
    else NumberedCount(lines[..|lines| - 1], side) + if lines[|lines| - 1].Number(side).Some? then 1 else 0
  }

  function WholeFileHunk(lines: seq<PatchLine>): Hunk {
    Hunk(FirstNumber(lines, Old), NumberedCount(lines, Old), FirstNumber(lines, New), NumberedCount(lines, New), lines)
  }

  lemma {:induction false} CountsAgree(lines: seq<PatchLine>, side: Side)
    requires forall i :: 0 <= i < |lines| ==> (lines[i].Number(side).Some? <==> lines[i].kind.On(side))
    ensures NumberedCount(lines, side) == CountOn(lines, side)
  {
    if lines != [] {
      CountsAgree(lines[..|lines| - 1], side);
    }
  }

  lemma {:induction false} CountSplit(lines: seq<PatchLine>, from: nat, end: nat, side: Side)
    requires from <= end <= |lines|
    ensures CountOn(lines[..end], side) == CountOn(lines[..from], side) + CountOn(lines[from..end], side)
    decreases end
  {
    if from < end {
      CountSplit(lines, from, end - 1, side);
      assert lines[..end][..end - 1] == lines[..end - 1];
      assert lines[from..end][..end - 1 - from] == lines[from..end - 1];
    }
  }

  /** The first number of a slice, when it has one, is the one its place calls for. */
  lemma {:induction false} FirstNumberOfSlice(lines: seq<PatchLine>, from: nat, end: nat, side: Side)
    requires NumberedFrom(lines, side, 1) && from <= end <= |lines|
    ensures FirstNumber(lines[from..end], side)
         == if CountOn(lines[from..end], side) == 0 then 0 else 1 + CountOn(lines[..from], side)
    decreases end - from
  {
    if from < end {
      hide CountOn;
      FirstNumberOfSlice(lines, from + 1, end, side);
      assert lines[from..end][1..] == lines[from + 1..end];
      assert lines[from].Number(side) == NumberAt(lines, from, side, 1);
      CountSplit(lines, from, end, side);
      CountSplit(lines, from + 1, end, side);
      NextCount(lines, from, side);
    } else {
      assert lines[from..end] == [];
    }
  }

  lemma NextCount(lines: seq<PatchLine>, i: nat, side: Side)
    requires i < |lines|
    ensures CountOn(lines[..i + 1], side) == CountOn(lines[..i], side) + if lines[i].kind.On(side) then 1 else 0
  {
    assert lines[..i + 1][..i] == lines[..i];
  }

  /** A hunk cut out of the script is sound, and its boundaries are where the script puts them: one line
      past those of its side before it, and past those up to its end. */
  lemma SliceIsSound(lines: seq<PatchLine>, from: nat, end: nat, side: Side)
    requires NumberedFrom(lines, side, 1) && from < end <= |lines|
    requires from > 0 ==> lines[from].kind == Context
    requires end < |lines| ==> lines[end - 1].kind == Context
    ensures var hunk := WholeFileHunk(lines[from..end]);
            && Sound(hunk, side) && hunk.First(side) == 1 + CountOn(lines[..from], side)
            && hunk.After(side) == 1 + CountOn(lines[..end], side)
  {
    hide FirstNumber, NumberedCount, CountOn, NumberedFrom;
    var slice := lines[from..end];
    SliceNumbers(lines, from, end, side);
    CountsAgree(slice, side);
    FirstNumberOfSlice(lines, from, end, side);
    CountSplit(lines, from, end, side);
    if CountOn(slice, side) == 0 {
      NumberedFromAny(slice, side, 1 + CountOn(lines[..from], side), 0);
      NoneMeansWhole(lines, from, end, side);
    }
  }

  lemma SliceNumbers(lines: seq<PatchLine>, from: nat, end: nat, side: Side)
    requires NumberedFrom(lines, side, 1) && from <= end <= |lines|
    ensures NumberedFrom(lines[from..end], side, 1 + CountOn(lines[..from], side))
    ensures forall i :: 0 <= i < end - from ==>
            (lines[from..end][i].Number(side).Some? <==> lines[from..end][i].kind.On(side))
  {
    hide CountOn;
    var slice := lines[from..end];
    forall i | 0 <= i < |slice|
      ensures slice[i].Number(side) == NumberAt(slice, i, side, 1 + CountOn(lines[..from], side))
    {
      assert lines[from + i].Number(side) == NumberAt(lines, from + i, side, 1);
      CountSplit(lines, from, from + i, side);
      assert slice[..i] == lines[from..from + i];
    }
  }

  /** With no line on the side, any starting number will do. */
  lemma NumberedFromAny(lines: seq<PatchLine>, side: Side, start: nat, other: nat)
    requires NumberedFrom(lines, side, start) && CountOn(lines, side) == 0
    ensures NumberedFrom(lines, side, other)
  {
    forall i | 0 <= i < |lines|
      ensures lines[i].Number(side) == NumberAt(lines, i, side, other)
    {
      NothingOn(lines, side, i);
      assert lines[i].Number(side) == NumberAt(lines, i, side, start);
    }
  }

  lemma {:induction false} NothingOn(lines: seq<PatchLine>, side: Side, i: nat)
    requires CountOn(lines, side) == 0 && i < |lines|
    ensures !lines[i].kind.On(side)
  {
    if i < |lines| - 1 {
      NothingOn(lines[..|lines| - 1], side, i);
    }
  }

  /** A hunk with no line on a side has no context, so it is the whole script. */
  lemma NoneMeansWhole(lines: seq<PatchLine>, from: nat, end: nat, side: Side)
    requires from < end <= |lines| && CountOn(lines[from..end], side) == 0
    requires from > 0 ==> lines[from].kind == Context
    requires end < |lines| ==> lines[end - 1].kind == Context
    ensures from == 0 && end == |lines| && CountOn(lines[..from], side) == 0
  {
    NothingOn(lines[from..end], side, 0);
    NothingOn(lines[from..end], side, end - from - 1);
    assert lines[..0] == [];
  }

  method GroupedHunks(lines: seq<PatchLine>) returns (hunks: seq<Hunk>, ghost groups: seq<Group>)
    requires NumberedFrom(lines, Old, 1) && NumberedFrom(lines, New, 1)
    ensures IsGrouping(groups, lines, |lines|) && AreSlices(hunks, groups, lines)
  {
    hide NumberedFrom, IsGrouping;
    var ranges;
    ranges, groups := GroupRanges(lines);
    hunks := [];
    for j := 0 to |ranges|
      invariant |hunks| == j && forall i :: 0 <= i < j ==> hunks[i] == HunkOf(groups[i], lines)
    {
      GapsApart(groups, lines, j);
      hunks := hunks + [WholeFileHunk(lines[ranges[j].start..ranges[j].end])];
    }
  }

  ghost function HunkOf(group: Group, lines: seq<PatchLine>): Hunk {
    if group.Start() <= group.End(|lines|) then WholeFileHunk(lines[group.Start()..group.End(|lines|)])
        else WholeFileHunk([])
  }

  ghost predicate AreSlices(hunks: seq<Hunk>, groups: seq<Group>, lines: seq<PatchLine>) {
    |hunks| == |groups| && forall j :: 0 <= j < |groups| ==> hunks[j] == HunkOf(groups[j], lines)
  }

  lemma GroupEdges(groups: seq<Group>, lines: seq<PatchLine>, j: nat)
    requires IsGrouping(groups, lines, |lines|) && j < |groups|
    ensures var from, end := groups[j].Start(), groups[j].End(|lines|);
            && from < end <= |lines|
            && (from > 0 ==> lines[from].kind == Context) && (end < |lines| ==> lines[end - 1].kind == Context)
  {
    GapsApart(groups, lines, j);
    GapsApart(groups, lines, j + 1);
    if groups[j].Start() > 0 {
      OutsideIsContext(groups, lines, j, groups[j].Start());
    }
    if groups[j].End(|lines|) < |lines| {
      OutsideIsContext(groups, lines, j + 1, groups[j].End(|lines|) - 1);
    }
  }

  lemma DerivedHunk(hunks: seq<Hunk>, groups: seq<Group>, lines: seq<PatchLine>, j: nat, side: Side)
    requires IsGrouping(groups, lines, |lines|) && AreSlices(hunks, groups, lines) && j < |hunks|
    requires NumberedFrom(lines, side, 1)
    ensures Sound(hunks[j], side) && groups[j].Start() <= groups[j].End(|lines|) <= |lines|
    ensures hunks[j].First(side) == 1 + CountOn(lines[..groups[j].Start()], side)
    ensures hunks[j].After(side) == 1 + CountOn(lines[..groups[j].End(|lines|)], side)
  {
    hide IsGrouping, NumberedFrom, WholeFileHunk, Sound, CountOn;
    GroupEdges(groups, lines, j);
    SliceIsSound(lines, groups[j].Start(), groups[j].End(|lines|), side);
  }

  /** Derived hunks fit texts with as many lines as the script has on each side, and each gap between
      them is the same number of lines on both sides. */
  lemma DerivedHunksFit(hunks: seq<Hunk>, groups: seq<Group>, lines: seq<PatchLine>, side: Side)
    requires IsGrouping(groups, lines, |lines|) && AreSlices(hunks, groups, lines) && NumberedFrom(lines, side, 1)
    ensures InRange(hunks, side, CountOn(lines, side))
  {
    hide IsGrouping, NumberedFrom, AreSlices, Sound, CountOn;
    SlicesCount(hunks, groups, lines);
    assert lines[..|lines|] == lines;
    forall k | 0 <= k < |hunks|
      ensures Sound(hunks[k], side) && Reached(hunks, k, side) <= hunks[k].First(side)
    {
      DerivedHunk(hunks, groups, lines, k, side);
      DerivedGap(hunks, groups, lines, k, side);
    }
    DerivedGap(hunks, groups, lines, |hunks|, side);
    assert AllSound(hunks, side) && Ordered(hunks, side);
  }

  lemma SlicesCount(hunks: seq<Hunk>, groups: seq<Group>, lines: seq<PatchLine>)
    requires AreSlices(hunks, groups, lines)
    ensures |hunks| == |groups|
  {
  }

  /** Gap `k` is the context between two groups, wherever its lines are on a side. */
  lemma DerivedGap(hunks: seq<Hunk>, groups: seq<Group>, lines: seq<PatchLine>, k: nat, side: Side)
    requires IsGrouping(groups, lines, |lines|) && AreSlices(hunks, groups, lines) && NumberedFrom(lines, side, 1)
             && k <= |hunks|
    ensures |groups| == |hunks| && GapStart(groups, k, |lines|) <= GapEnd(groups, k, |lines|) <= |lines|
    ensures Reached(hunks, k, side) == 1 + CountOn(lines[..GapStart(groups, k, |lines|)], side)
    ensures (if k < |hunks| then hunks[k].First(side) else CountOn(lines, side) + 1) == 1
            + CountOn(lines[..GapEnd(groups, k, |lines|)], side)
         == Reached(hunks, k, side) + (GapEnd(groups, k, |lines|) - GapStart(groups, k, |lines|))
  {
    hide IsGrouping, NumberedFrom, Sound, CountOn;
    GapsApart(groups, lines, k);
    if k > 0 {
      DerivedHunk(hunks, groups, lines, k - 1, side);
    } else {
      assert lines[..0] == [];
      NoLines(side);
    }
    if k < |hunks| {
      DerivedHunk(hunks, groups, lines, k, side);
    } else {
      assert lines[..|lines|] == lines;
    }
    CountSplit(lines, GapStart(groups, k, |lines|), GapEnd(groups, k, |lines|), side);
    ContextCounts(lines[GapStart(groups, k, |lines|)..GapEnd(groups, k, |lines|)], side);
  }

  lemma NoLines(side: Side)
    ensures CountOn([], side) == 0
  {
  }

  lemma {:induction false} ContextCounts(lines: seq<PatchLine>, side: Side)
    requires forall i :: 0 <= i < |lines| ==> lines[i].kind == Context
    ensures CountOn(lines, side) == |lines|
  {
    if lines != [] {
      ContextCounts(lines[..|lines| - 1], side);
    }
  }

  // ---- marks -------------------------------------------------------------

  function LastOf(lines: seq<PatchLine>, kind: LineKind): (r: Option<nat>)
    ensures r.Some? ==> r.value < |lines| && lines[r.value].kind == kind
                        && forall i :: r.value < i < |lines| ==> lines[i].kind != kind
    ensures r.None? ==> forall i :: 0 <= i < |lines| ==> lines[i].kind != kind
  {
    if lines == [] then None
    else if lines[|lines| - 1].kind == kind then Some(|lines| - 1)
    else LastOf(lines[..|lines| - 1], kind)
  }

  /** The last line that stands on a side. */
  function LastOn(lines: seq<PatchLine>, side: Side): (r: Option<nat>)
    ensures r.Some? ==> r.value < |lines| && lines[r.value].kind.On(side)
                        && forall i :: r.value < i < |lines| ==> !lines[i].kind.On(side)
    ensures r.None? ==> forall i :: 0 <= i < |lines| ==> !lines[i].kind.On(side)
  {
    if lines == [] then None
    else if lines[|lines| - 1].kind.On(side) then Some(|lines| - 1)
    else LastOn(lines[..|lines| - 1], side)
  }

  function Marked(hunk: Hunk, kind: LineKind): Hunk {
    var last := LastOf(hunk.lines, kind);
    if last.None? then hunk
    else hunk.(lines := hunk.lines[last.value := hunk.lines[last.value].(noNewline := true)])
  }

  method MarkLastIncomplete(hunk: Hunk, kind: LineKind) returns (marked: Hunk)
    ensures marked == Marked(hunk, kind)
  {
    var i := |hunk.lines|;
    while i > 0
      invariant 0 <= i <= |hunk.lines| && forall j :: i <= j < |hunk.lines| ==> hunk.lines[j].kind != kind
    {
      i := i - 1;
      if hunk.lines[i].kind == kind {
        return hunk.(lines := hunk.lines[i := hunk.lines[i].(noNewline := true)]);
      }
    }
    return hunk;
  }

  function OwnKind(side: Side): LineKind { if side == Old then Removed else Added }

  /** The mark for a text without a final newline is put on the last changed line of its side. That line
      is the last of the text exactly when the text ends in a changed line; when it ends in context the
      mark is wrong, or missing. */
  lemma MarkIsRightIff(lines: seq<PatchLine>, groups: seq<Group>, side: Side)
    requires IsGrouping(groups, lines, |lines|) && groups != []
    requires forall i :: 0 <= i < |lines| ==>
             lines[i].kind == Context || lines[i].kind == Added || lines[i].kind == Removed
    ensures var from, end := groups[|groups| - 1].Start(), groups[|groups| - 1].End(|lines|);
            && from <= end <= |lines|
            && match LastOf(lines[from..end], OwnKind(side))
               case Some(i) => LastOn(lines, side) == Some(from + i) <==> EndsInChange(lines, side)
               case None => !EndsInChange(lines, side)
  {
    hide IsGrouping, LastOf, LastOn;
    var j := |groups| - 1;
    GapsApart(groups, lines, j);
    GapsApart(groups, lines, j + 1);
    var from, end := groups[j].Start(), groups[j].End(|lines|);
    var mark := LastOf(lines[from..end], OwnKind(side));
    if EndsInChange(lines, side) {
      var last := LastOn(lines, side).value;
      LastChangeIsInLastGroup(lines, groups, last);
      SliceHolds(lines, from, end, last);
      LastInSlice(lines, from, end, side);
    } else if mark.Some? {
      assert lines[from..end][mark.value] == lines[from + mark.value];
    }
  }

  /** The text of a side ends in a line that is not in the other text. */
  predicate EndsInChange(lines: seq<PatchLine>, side: Side) {
    LastOn(lines, side).Some? && lines[LastOn(lines, side).value].kind == OwnKind(side)
  }

  lemma SliceHolds(lines: seq<PatchLine>, from: nat, end: nat, i: nat)
    requires from <= i < end <= |lines|
    ensures lines[from..end][i - from] == lines[i]
  {
  }

  lemma LastInSlice(lines: seq<PatchLine>, from: nat, end: nat, side: Side)
    requires from <= end <= |lines| && EndsInChange(lines, side) && from <= LastOn(lines, side).value < end
    ensures LastOf(lines[from..end], OwnKind(side)) == Some(LastOn(lines, side).value - from)
  {
    hide LastOf, LastOn;
    var last, slice := LastOn(lines, side).value, lines[from..end];
    assert slice[last - from] == lines[last];
    forall i | last - from < i < |slice|
      ensures slice[i].kind != OwnKind(side)
    {
      assert slice[i] == lines[from + i];
    }
  }

  /** When nothing but changed lines follow a changed line, they are all in the last group. */
  lemma LastChangeIsInLastGroup(lines: seq<PatchLine>, groups: seq<Group>, i: nat)
    requires IsGrouping(groups, lines, |lines|) && i < |lines| && groups != []
    requires forall k :: i <= k < |lines| ==> Changes(lines[k])
    ensures groups[|groups| - 1].Start() <= i < groups[|groups| - 1].End(|lines|)
  {
    var j := |groups| - 1;
    assert InSomeGroup(groups, i);
    var g :| 0 <= g < |groups| && groups[g].Holds(i);
    if g < j {
      GroupsLeaveRoom(groups, lines, g);
      OutsideIsContext(groups, lines, g + 1, groups[g].last + 1);
    }
  }

  lemma GroupsLeaveRoom(groups: seq<Group>, lines: seq<PatchLine>, g: nat)
    requires IsGrouping(groups, lines, |lines|) && g + 1 < |groups|
    ensures groups[g].last + 1 < groups[g + 1].first < |lines|
  {
    assert groups[g].last + CONTEXT + 1 < groups[g + 1].Start();
  }

  /** Old text `a`, `b` and new text `x`, `b`, both without a final newline: the mark goes to `x`. */
  lemma ContextAtTheEndIsNotMarked()
    ensures var lines := [PatchLine(Removed, [97], Some(1), None, false), PatchLine(Added, [120], None, Some(1), false),
                          PatchLine(Context, [98], Some(2), Some(2), false)];
            && Marked(WholeFileHunk(lines), Added).lines[1].noNewline
            && !Marked(WholeFileHunk(lines), Added).lines[2].noNewline
            && LastOn(lines, New) == Some(2)
  {
    var lines := [PatchLine(Removed, [97], Some(1), None, false), PatchLine(Added, [120], None, Some(1), false),
                  PatchLine(Context, [98], Some(2), Some(2), false)];
    assert lines[..2] == [lines[0], lines[1]];
    assert LastOf(lines, Added) == Some(1);
  }

  /** Marks change nothing else. */
  ghost predicate SameButMarks(a: seq<Hunk>, b: seq<Hunk>) {
    |a| == |b| && forall k :: 0 <= k < |a| ==> SameHunkButMarks(a[k], b[k])
  }

  ghost predicate SameHunkButMarks(a: Hunk, b: Hunk) {
    && a == b.(lines := a.lines) && |a.lines| == |b.lines|
    && forall i :: 0 <= i < |a.lines| ==> a.lines[i] == b.lines[i].(noNewline := a.lines[i].noNewline)
  }

  lemma {:induction false} MarksDoNotCount(a: seq<PatchLine>, b: seq<PatchLine>, side: Side)
    requires |a| == |b| && forall i :: 0 <= i < |a| ==> a[i] == b[i].(noNewline := a[i].noNewline)
    ensures CountOn(a, side) == CountOn(b, side)
  {
    if a != [] {
      MarksDoNotCount(a[..|a| - 1], b[..|b| - 1], side);
    }
  }

  lemma MarkedIsSound(a: Hunk, b: Hunk, side: Side)
    requires SameHunkButMarks(a, b) && Sound(a, side)
    ensures Sound(b, side) && b.First(side) == a.First(side) && b.After(side) == a.After(side)
  {
    MarksDoNotCount(a.lines, b.lines, side);
    forall i | 0 <= i < |b.lines|
      ensures b.lines[i].Number(side) == NumberAt(b.lines, i, side, b.Start(side))
    {
      MarksDoNotCount(a.lines[..i], b.lines[..i], side);
      assert a.lines[i].Number(side) == NumberAt(a.lines, i, side, a.Start(side));
    }
  }

  lemma MarkedInRange(a: seq<Hunk>, b: seq<Hunk>, side: Side, count: nat)
    requires SameButMarks(a, b) && InRange(a, side, count)
    ensures InRange(b, side, count)
  {
    hide Sound, AllSound, Ordered, SameHunkButMarks;
    assert AllSound(b, side) by {
      MarkedSound(a, b, side);
    }
    assert Ordered(b, side) by {
      MarkedOrdered(a, b, side);
    }
    MarkedReach(a, b, side, |a|);
  }

  lemma MarkedSound(a: seq<Hunk>, b: seq<Hunk>, side: Side)
    requires SameButMarks(a, b) && AllSound(a, side)
    ensures AllSound(b, side)
  {
    hide Sound, SameHunkButMarks;
    forall k | 0 <= k < |b|
      ensures Sound(b[k], side)
    {
      MarkedIsSound(a[k], b[k], side);
    }
  }

  lemma MarkedReach(a: seq<Hunk>, b: seq<Hunk>, side: Side, k: nat)
    requires SameButMarks(a, b) && k <= |a|
    ensures Reached(b, k, side) == Reached(a, k, side)
  {
    if k > 0 {
      assert SameHunkButMarks(a[k - 1], b[k - 1]);
    }
  }

  lemma MarkedOrdered(a: seq<Hunk>, b: seq<Hunk>, side: Side)
    requires SameButMarks(a, b) && Ordered(a, side)
    ensures Ordered(b, side)
  {
    hide Reached;
    forall k | 0 <= k < |b|
      ensures Reached(b, k, side) <= b[k].First(side)
    {
      MarkedReach(a, b, side, k);
      assert SameHunkButMarks(a[k], b[k]);
    }
  }

  // ---- texts -------------------------------------------------------------

  /** The lines the script has on a side. */
  function ValuesOn(changes: seq<Change>, side: Side): seq<Source> {
    if changes == [] then []
    else ValuesOn(changes[..|changes| - 1], side)
         + if changes[|changes| - 1].tag.Kind().On(side) then [changes[|changes| - 1].value] else []
  }

  /** What the text differ promises of its script: each side of it is the text of that side, cut where
      the differ ends lines. */
  ghost predicate IsScript(changes: seq<Change>, text: Source, side: Side) {
    ValuesOn(changes, side) == Tokens(text)
  }

  lemma {:induction false} ValueAt(changes: seq<Change>, lines: seq<PatchLine>, k: nat, side: Side, i: nat)
    requires |lines| == |changes| && k <= |lines|
    requires forall j :: 0 <= j < |lines| ==> lines[j].kind == changes[j].tag.Kind()
    ensures |ValuesOn(changes[..k], side)| == CountOn(lines[..k], side)
    ensures i < k && lines[i].kind.On(side) ==>
              CountOn(lines[..i], side) < CountOn(lines[..k], side)
              && ValuesOn(changes[..k], side)[CountOn(lines[..i], side)] == changes[i].value
    decreases k
  {
    if k > 0 {
      assert changes[..k][..k - 1] == changes[..k - 1] && lines[..k][..k - 1] == lines[..k - 1];
      ValueAt(changes, lines, k - 1, side, i);
    }
  }

  /** In a text without lone carriage returns a script line on a side is the source line its number says. */
  lemma ScriptLineIsSourceLine(changes: seq<Change>, lines: seq<PatchLine>, text: Source, side: Side, i: nat)
    requires Scripted(lines, changes) && IsScript(changes, text, side) && NoLoneCR(text) && i < |lines|
             && lines[i].kind.On(side)
    ensures var number := 1 + CountOn(lines[..i], side);
            && lines[i].Number(side) == Some(number) && number <= |TextLines(text)|
            && changes[i].value == LineToken(text, number - 1)
            && SourceDocument(text, LineStarts(text)).Line(number) == Some(PatchText(changes[i].value))
  {
    hide LineToken, PatchText, NumberAt, CountOn, ValuesOn, StripLineEnding, Tokens, TextLines;
    ValueAt(changes, lines, |lines|, side, i);
    TokensAreLines(text);
    assert changes[..|changes|] == changes && lines[..|lines|] == lines;
    NumberOf(lines, i, side);
    PatchTextIsLine(SourceDocument(text, LineStarts(text)), CountOn(lines[..i], side));
  }

  lemma NumberOf(lines: seq<PatchLine>, i: nat, side: Side)
    requires NumberedFrom(lines, side, 1) && i < |lines| && lines[i].kind.On(side)
    ensures lines[i].Number(side) == Some(1 + CountOn(lines[..i], side))
  {
    assert lines[i].Number(side) == NumberAt(lines, i, side, 1);
  }

  lemma ScriptCounts(changes: seq<Change>, lines: seq<PatchLine>, side: Side)
    requires Scripted(lines, changes)
    ensures CountOn(lines, side) == |ValuesOn(changes, side)|
  {
    ValueAt(changes, lines, |lines|, side, 0);
    assert changes[..|changes|] == changes && lines[..|lines|] == lines;
  }

  lemma ScriptedNumbers(lines: seq<PatchLine>, changes: seq<Change>)
    requires Scripted(lines, changes)
    ensures NumberedFrom(lines, Old, 1) && NumberedFrom(lines, New, 1)
  {
  }

  // ---- the derivation ----------------------------------------------------

  predicate Incomplete(text: Source) { text != [] && !EndsWithLF(text) }

  /** Marks the last hunk for the sides that lack a final newline. */
  function MarkedFor(hunk: Hunk, added: bool, removed: bool): Hunk {
    var first := if added then Marked(hunk, Added) else hunk;
    if removed then Marked(first, Removed) else first
  }

  ghost function MarkedLast(hunks: seq<Hunk>, added: bool, removed: bool): seq<Hunk> {
    if hunks == [] then [] else hunks[..|hunks| - 1] + [MarkedFor(hunks[|hunks| - 1], added, removed)]
  }

  lemma MarkingKeeps(hunk: Hunk, kind: LineKind)
    ensures SameHunkButMarks(hunk, Marked(hunk, kind))
  {
  }

  lemma MarkedLastKeeps(hunks: seq<Hunk>, added: bool, removed: bool)
    ensures SameButMarks(hunks, MarkedLast(hunks, added, removed))
  {
    hide Marked;
    if hunks != [] {
      var hunk := hunks[|hunks| - 1];
      MarkingKeeps(hunk, Added);
      MarkingKeeps(hunk, Removed);
      MarkingKeeps(Marked(hunk, Added), Removed);
    }
  }

  /** Derives the hunks between two texts from a script that turns one into the other. */
  method DerivePatch(changes: seq<Change>, before: Source, after: Source)
    returns (hunks: seq<Hunk>, incomplete: bool, ghost lines: seq<PatchLine>, ghost groups: seq<Group>,
             ghost unmarked: seq<Hunk>)
    requires IsScript(changes, before, Old) && IsScript(changes, after, New)
    ensures Scripted(lines, changes) && IsGrouping(groups, lines, |lines|) && AreSlices(unmarked, groups, lines)
    ensures hunks == MarkedLast(unmarked, Incomplete(after), Incomplete(before))
    ensures incomplete == (Incomplete(before) || Incomplete(after))
  {
    hide NumberedFrom, IsGrouping, Scripted, AreSlices, Marked, Incomplete;
    var numbered := NumberChanges(changes);
    lines := numbered;
    ScriptedNumbers(lines, changes);
    hunks, groups := GroupedHunks(numbered);
    unmarked := hunks;
    if hunks != [] {
      var last := hunks[|hunks| - 1];
      if Incomplete(after) {
        last := MarkLastIncomplete(last, Added);
      }
      if Incomplete(before) {
        last := MarkLastIncomplete(last, Removed);
      }
      hunks := hunks[..|hunks| - 1] + [last];
    }
    incomplete := Incomplete(before) || Incomplete(after);
  }

  /** When neither text has a lone carriage return, the derived hunks fit both, and every gap between them
      holds the same lines on both sides. */
  lemma DerivedPatchFits(changes: seq<Change>, before: Source, after: Source, lines: seq<PatchLine>, groups: seq<Group>,
                         unmarked: seq<Hunk>, hunks: seq<Hunk>)
    requires IsScript(changes, before, Old) && IsScript(changes, after, New)
    requires Scripted(lines, changes) && IsGrouping(groups, lines, |lines|) && AreSlices(unmarked, groups, lines)
    requires hunks == MarkedLast(unmarked, Incomplete(after), Incomplete(before)) && NoLoneCR(before) && NoLoneCR(after)
    ensures InRange(hunks, Old, |TextLines(before)|) && InRange(hunks, New, |TextLines(after)|)
    ensures forall k :: 0 <= k <= |hunks| ==> GapsMatch(hunks, k, before, after)
  {
    hide NumberedFrom, IsGrouping, AreSlices, Marked, Incomplete, InRange, GapsMatch, IsScript, Scripted, NoLoneCR,
         LoneCRs, TextLines;
    ScriptedNumbers(lines, changes);
    ScriptFits(changes, lines, before, Old);
    ScriptFits(changes, lines, after, New);
    DerivedHunksFit(unmarked, groups, lines, Old);
    DerivedHunksFit(unmarked, groups, lines, New);
    MarkedLastKeeps(unmarked, Incomplete(after), Incomplete(before));
    MarkedInRange(unmarked, hunks, Old, |TextLines(before)|);
    MarkedInRange(unmarked, hunks, New, |TextLines(after)|);
    forall k | 0 <= k <= |hunks|
      ensures GapsMatch(hunks, k, before, after)
    {
      DerivedGapsMatch(changes, before, after, lines, groups, unmarked, hunks, k);
    }
  }

  lemma ScriptFits(changes: seq<Change>, lines: seq<PatchLine>, text: Source, side: Side)
    requires Scripted(lines, changes) && IsScript(changes, text, side)
    ensures CountOn(lines, side) == |TextLines(text)| + LoneCRs(text)
    ensures NoLoneCR(text) ==> CountOn(lines, side) == |TextLines(text)|
  {
    hide Tokens, TextLines, LoneCRs, NoLoneCR;
    ScriptCounts(changes, lines, side);
    TokensCount(text);
    NoLoneCRIff(text);
  }

  /** How many lines of a side come after the last hunk. */
  function LinesBehind(lines: seq<PatchLine>, groups: seq<Group>, side: Side): int
    requires groups != [] && groups[|groups| - 1].End(|lines|) <= |lines|
  {
    CountOn(lines, side) - CountOn(lines[..groups[|groups| - 1].End(|lines|)], side)
  }

  /** With lone carriage returns the hunks fit a text exactly as long as there are no more of them than
      lines behind the last hunk: its numbers count the returns as line ends, the source does not. */
  lemma DerivedHunksFitIff(changes: seq<Change>, text: Source, lines: seq<PatchLine>, groups: seq<Group>,
                           unmarked: seq<Hunk>, hunks: seq<Hunk>, side: Side)
    requires IsScript(changes, text, side) && Scripted(lines, changes) && IsGrouping(groups, lines, |lines|)
    requires AreSlices(unmarked, groups, lines) && SameButMarks(unmarked, hunks)
    ensures hunks == [] ==> InRange(hunks, side, |TextLines(text)|)
    ensures hunks != [] ==>
              && groups != [] && groups[|groups| - 1].End(|lines|) <= |lines|
              && (InRange(hunks, side, |TextLines(text)|) <==> LoneCRs(text) <= LinesBehind(lines, groups, side))
  {
    hide NumberedFrom, IsGrouping, AreSlices, IsScript, Scripted, SameButMarks, AllSound, Ordered, Reached, LoneCRs,
         TextLines, CountOn;
    ScriptedNumbers(lines, changes);
    ScriptFits(changes, lines, text, side);
    DerivedHunksFit(unmarked, groups, lines, side);
    MarkedInRange(unmarked, hunks, side, CountOn(lines, side));
    SameCount(unmarked, hunks);
    DerivedGap(unmarked, groups, lines, |unmarked|, side);
    MarkedReach(unmarked, hunks, side, |hunks|);
    if hunks == [] {
      NothingReached(hunks, side);
    }
  }

  lemma NothingReached(hunks: seq<Hunk>, side: Side)
    requires hunks == []
    ensures Reached(hunks, |hunks|, side) == 1
  {
  }

  /** A file created as `a`, carriage return, `b`, line feed has one line and a hunk of two. */
  lemma LoneCROverruns(lines: seq<PatchLine>, groups: seq<Group>, unmarked: seq<Hunk>, hunks: seq<Hunk>)
    requires Scripted(lines, [Change(Gained, [97, CR]), Change(Gained, [98, LF])]) && IsGrouping(groups, lines, |lines|)
    requires AreSlices(unmarked, groups, lines) && SameButMarks(unmarked, hunks)
    ensures IsScript([Change(Gained, [97, CR]), Change(Gained, [98, LF])], [97, CR, 98, LF], New)
    ensures |TextLines([97, CR, 98, LF])| == 1 && !InRange(hunks, New, 1)
  {
    hide Tokens, TextLines, LoneCRs, IsGrouping, InRange, AreSlices, SameButMarks, NumberedFrom, LinesBehind;
    var changes := [Change(Gained, [97, CR]), Change(Gained, [98, LF])];
    var text: Source := [97, CR, 98, LF];
    LoneCRIsALine();
    assert changes[..1] == [Change(Gained, [97, CR])] && changes[..1][..0] == [];
    assert ValuesOn(changes[..1], New) == [[97, CR]];
    assert lines[1].kind == Added;
    LastGroupReaches(lines, groups, 1);
    SlicesCount(unmarked, groups, lines);
    SameCount(unmarked, hunks);
    DerivedHunksFitIff(changes, text, lines, groups, unmarked, hunks, New);
  }

  /** Nothing is behind the last hunk when the script ends in a change. */
  lemma LastGroupReaches(lines: seq<PatchLine>, groups: seq<Group>, i: nat)
    requires IsGrouping(groups, lines, |lines|) && i == |lines| - 1 && Changes(lines[i])
    ensures groups != [] && groups[|groups| - 1].End(|lines|) == |lines| && LinesBehind(lines, groups, New) == 0
  {
    assert InSomeGroup(groups, i);
    var g: nat :| g < |groups| && groups[g].Holds(i);
    if g < |groups| - 1 {
      GroupsLeaveRoom(groups, lines, g);
    }
    assert lines[..|lines|] == lines;
  }

  /** Gap `k` is as long on one side as on the other, and its lines read the same on both. */
  ghost predicate GapsMatch(hunks: seq<Hunk>, k: nat, before: Source, after: Source)
    requires k <= |hunks|
  {
    var left, right := GapAt(hunks, k, |TextLines(before)|, Old), GapAt(hunks, k, |TextLines(after)|, New);
    && left.end - left.start == right.end - right.start
    && forall i: nat, j: nat :: left.start <= i < left.end && i - left.start == j - right.start ==>
        SameLine(before, i, after, j)
  }

  ghost predicate SameLine(before: Source, i: nat, after: Source, j: nat) {
    var left, right := SourceDocument(before, LineStarts(before)).Line(i),
        SourceDocument(after, LineStarts(after)).Line(j);
    left.Some? && left == right
  }

  lemma MarkedGap(unmarked: seq<Hunk>, hunks: seq<Hunk>, k: nat, count: nat, side: Side)
    requires SameButMarks(unmarked, hunks) && InRange(unmarked, side, count) && k <= |hunks|
    ensures Reached(hunks, k, side) == Reached(unmarked, k, side)
    ensures k < |hunks| ==> hunks[k].First(side) == unmarked[k].First(side)
  {
    hide Sound;
    if k > 0 {
      MarkedIsSound(unmarked[k - 1], hunks[k - 1], side);
    }
    if k < |hunks| {
      MarkedIsSound(unmarked[k], hunks[k], side);
    }
  }

  lemma DerivedGapAt(changes: seq<Change>, text: Source, lines: seq<PatchLine>, groups: seq<Group>,
                     unmarked: seq<Hunk>, hunks: seq<Hunk>, k: nat, side: Side)
    requires IsScript(changes, text, side) && NoLoneCR(text) && Scripted(lines, changes)
             && IsGrouping(groups, lines, |lines|)
    requires AreSlices(unmarked, groups, lines) && SameButMarks(unmarked, hunks) && k <= |hunks|
    ensures |groups| == |hunks|
    ensures var gap, from, end := GapAt(hunks, k, |TextLines(text)|, side), GapStart(groups, k, |lines|),
            GapEnd(groups, k, |lines|);
            && from <= end <= |lines|
            && gap.start == 1 + CountOn(lines[..from], side) && gap.end == gap.start + (end - from)
  {
    hide NumberedFrom, IsGrouping, AreSlices, IsScript, Scripted, SameButMarks, InRange, Sound, NextLine, Reached,
         NoLoneCR, LoneCRs;
    ScriptedNumbers(lines, changes);
    ScriptFits(changes, lines, text, side);
    DerivedHunksFit(unmarked, groups, lines, side);
    MarkedInRange(unmarked, hunks, side, |TextLines(text)|);
    SameCount(unmarked, hunks);
    DerivedGap(unmarked, groups, lines, k, side);
    MarkedGap(unmarked, hunks, k, |TextLines(text)|, side);
    GapAtReached(hunks, k, |TextLines(text)|, side);
  }

  lemma SameCount(unmarked: seq<Hunk>, hunks: seq<Hunk>)
    requires SameButMarks(unmarked, hunks)
    ensures |unmarked| == |hunks|
  {
  }

  lemma GapAtReached(hunks: seq<Hunk>, k: nat, count: nat, side: Side)
    requires InRange(hunks, side, count) && k <= |hunks|
    ensures GapAt(hunks, k, count, side)
            == Range(Reached(hunks, k, side), if k < |hunks| then hunks[k].First(side) else count + 1)
  {
    hide AllSound, Sound, NextLine;
    NextLineIsReached(hunks, k, side);
  }

  lemma DerivedGapsMatch(changes: seq<Change>, before: Source, after: Source, lines: seq<PatchLine>, groups: seq<Group>,
                         unmarked: seq<Hunk>, hunks: seq<Hunk>, k: nat)
    requires IsScript(changes, before, Old) && IsScript(changes, after, New) && NoLoneCR(before) && NoLoneCR(after)
             && k <= |hunks|
    requires Scripted(lines, changes) && IsGrouping(groups, lines, |lines|) && AreSlices(unmarked, groups, lines)
    requires SameButMarks(unmarked, hunks)
    ensures GapsMatch(hunks, k, before, after)
  {
    hide IsGrouping, AreSlices, IsScript, SameButMarks, GapAt, GapStart, GapEnd, CountOn, SameLine, Scripted, NoLoneCR;
    DerivedGapAt(changes, before, lines, groups, unmarked, hunks, k, Old);
    DerivedGapAt(changes, after, lines, groups, unmarked, hunks, k, New);
    var from, end := GapStart(groups, k, |lines|), GapEnd(groups, k, |lines|);
    GapsApart(groups, lines, k);
    var left, right := 1 + CountOn(lines[..from], Old), 1 + CountOn(lines[..from], New);
    forall i: nat, j: nat | left <= i < left + (end - from) && i - left == j - right
      ensures SameLine(before, i, after, j)
    {
      GapLineMatches(changes, before, after, lines, from, end, i - left);
    }
  }

  lemma GapLineMatches(changes: seq<Change>, before: Source, after: Source, lines: seq<PatchLine>, from: nat, end: nat,
                       o: nat)
    requires IsScript(changes, before, Old) && IsScript(changes, after, New) && NoLoneCR(before) && NoLoneCR(after)
    requires Scripted(lines, changes)
    requires from + o < end <= |lines| && forall i :: from <= i < end ==> lines[i].kind == Context
    ensures SameLine(before, 1 + CountOn(lines[..from], Old) + o, after, 1 + CountOn(lines[..from], New) + o)
  {
    hide IsScript, Scripted, CountOn, PatchText, LineToken, TextLines, LineStarts, NoLoneCR;
    var i := from + o;
    ContextStretch(lines, from, i, Old);
    ContextStretch(lines, from, i, New);
    ScriptLineIsSourceLine(changes, lines, before, Old, i);
    ScriptLineIsSourceLine(changes, lines, after, New, i);
    LineStartsValid(before);
    LineStartsValid(after);
  }

  lemma LineStartsValid(text: Source)
    ensures SourceDocument(text, LineStarts(text)).Valid()
  {
  }

  lemma ContextStretch(lines: seq<PatchLine>, from: nat, i: nat, side: Side)
    requires from <= i <= |lines| && forall k :: from <= k < i ==> lines[k].kind == Context
    ensures CountOn(lines[..i], side) == CountOn(lines[..from], side) + (i - from)
  {
    CountSplit(lines, from, i, side);
    ContextCounts(lines[from..i], side);
  }
}
