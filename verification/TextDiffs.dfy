/**
 Files built from two complete texts, and what a presentation shows of them.
 */
module TextDiffs {
  import opened Bytes
  import opened SourceDocuments
  import opened LineTokens
  import opened Hunks
  import opened Documents
  import opened Rows
  import opened GapRows
  import opened FileRows
  import opened PatchDerivation

  /** A file whose sides are these texts, each captured whole or not at all. */
  ghost predicate HoldsTexts(file: FileDiff, before: Source, after: Source) {
    && file.Valid() && file.status == StatusOf(before, after)
    && (file.oldSource.Captured? ==> file.oldSource.document.text == before)
    && (file.newSource.Captured? ==> file.newSource.document.text == after)
    && (file.status == Created ==> file.oldSource == Missing(Absent))
    && (file.status == Deleted ==> file.newSource == Missing(Absent))
  }

  /** A file made from two texts: its hunks fit both and its gaps are the same lines on both sides. */
  ghost predicate IsTextFile(file: FileDiff, before: Source, after: Source) {
    && HoldsTexts(file, before, after)
    && InRange(file.hunks, Old, |TextLines(before)|) && InRange(file.hunks, New, |TextLines(after)|)
    && forall k :: 0 <= k <= |file.hunks| ==> GapsMatch(file.hunks, k, before, after)
  }

  function StatusOf(before: Source, after: Source): FileStatus {
    if before == [] && after != [] then Created
    else if before != [] && after == [] then Deleted
    else Modified
  }

  method CaptureSide(text: Source, absent: bool) returns (r: SourceResult)
    ensures absent ==> r == Missing(Absent)
    ensures r.Captured? ==> r.document.Valid() && r.document.text == text
    ensures !absent && |text| <= MAX_SOURCE_FILE_BYTES && |TextLines(text)| <= MAX_SOURCE_FILE_LINES ==> r.Captured?
  {
    if absent {
      return Missing(Absent);
    }
    r := TryFromText(text);
  }

  /** Builds a one-file diff from two texts and a script between them. Its hunks fit when neither text has
      a lone carriage return, and in any case when no more of them are in a text than lines behind the last hunk. */
  method FromTexts(path: RepoPath, changes: seq<Change>, before: Source, after: Source)
    returns (file: FileDiff, ghost lines: seq<PatchLine>, ghost groups: seq<Group>)
    requires IsScript(changes, before, Old) && IsScript(changes, after, New)
    ensures HoldsTexts(file, before, after) && file.path == path
    ensures NoLoneCR(before) && NoLoneCR(after) ==> IsTextFile(file, before, after)
    ensures Scripted(lines, changes) && |groups| == |file.hunks|
    ensures file.hunks != [] ==>
              && groups[|groups| - 1].End(|lines|) <= |lines|
              && (InRange(file.hunks, Old, |TextLines(before)|) <==> LoneCRs(before) <= LinesBehind(lines, groups, Old))
              && (InRange(file.hunks, New, |TextLines(after)|) <==> LoneCRs(after) <= LinesBehind(lines, groups, New))
    ensures file.status != Created && |before| <= MAX_SOURCE_FILE_BYTES
            && |TextLines(before)| <= MAX_SOURCE_FILE_LINES ==>
              file.oldSource.Captured?
    ensures file.status != Deleted && |after| <= MAX_SOURCE_FILE_BYTES
            && |TextLines(after)| <= MAX_SOURCE_FILE_LINES ==>
              file.newSource.Captured?
  {
    hide InRange, GapsMatch, IsScript, IsGrouping, AreSlices, Scripted, TextLines, NoLoneCR, LoneCRs, LinesBehind;
    var status := StatusOf(before, after);
    ghost var unmarked;
    var hunks, incomplete;
    hunks, incomplete, lines, groups, unmarked := DerivePatch(changes, before, after);
    if NoLoneCR(before) && NoLoneCR(after) {
      DerivedPatchFits(changes, before, after, lines, groups, unmarked, hunks);
    }
    HunksFitIff(changes, before, after, lines, groups, unmarked, hunks);
    var oldSource := CaptureSide(before, status == Created);
    var newSource := CaptureSide(after, status == Deleted);
    file := FileDiff(path, status, Unstaged, hunks, oldSource, newSource);
  }

  lemma HunksFitIff(changes: seq<Change>, before: Source, after: Source, lines: seq<PatchLine>, groups: seq<Group>,
                    unmarked: seq<Hunk>, hunks: seq<Hunk>)
    requires IsScript(changes, before, Old) && IsScript(changes, after, New)
    requires Scripted(lines, changes) && IsGrouping(groups, lines, |lines|) && AreSlices(unmarked, groups, lines)
    requires hunks == MarkedLast(unmarked, Incomplete(after), Incomplete(before))
    ensures |groups| == |hunks|
    ensures hunks != [] ==>
              && groups[|groups| - 1].End(|lines|) <= |lines|
              && (InRange(hunks, Old, |TextLines(before)|) <==> LoneCRs(before) <= LinesBehind(lines, groups, Old))
              && (InRange(hunks, New, |TextLines(after)|) <==> LoneCRs(after) <= LinesBehind(lines, groups, New))
  {
    hide IsGrouping, AreSlices, IsScript, Scripted, SameButMarks, InRange, LoneCRs, TextLines, LinesBehind, MarkedLast;
    MarkedLastKeeps(unmarked, Incomplete(after), Incomplete(before));
    SlicesCount(unmarked, groups, lines);
    SameCount(unmarked, hunks);
    DerivedHunksFitIff(changes, before, lines, groups, unmarked, hunks, Old);
    DerivedHunksFitIff(changes, after, lines, groups, unmarked, hunks, New);
  }

  function TextOn(before: Source, after: Source, side: Side): Source {
    if side == Old then before else after
  }

  /** What is captured of a side is all of its text, or nothing. */
  lemma CapturedCount(view: FileView, before: Source, after: Source, side: Side)
    requires IsTextFile(view.file, before, after)
    ensures view.Count(side) == if view.file.Source(side).Captured? then |TextLines(TextOn(before, after, side))| else 0
  {
    hide InRange, GapsMatch;
    LineIsPiece(TextOn(before, after, side), 0);
  }

  lemma ShorterGap(hunks: seq<Hunk>, k: nat, fewer: nat, count: nat, side: Side)
    requires k <= |hunks| && fewer <= count
    ensures var a, b := GapAt(hunks, k, fewer, side), GapAt(hunks, k, count, side);
            a.start == b.start <= a.end <= b.end
  {
  }

  /** The hunks of a text file fit what a presentation needs of it, in any layout its status allows. */
  lemma TextFileFits(view: FileView, before: Source, after: Source, side: Side)
    requires IsTextFile(view.file, before, after) && view.Gap(0).Loaded()
    requires view.layout == view.layout.ForStatus(view.file.status) && Required(view.layout, view.file.status, side)
    ensures Fits(view, side) && GapsHideOwnLines(view, side, |view.file.hunks| + 1)
    ensures view.Count(side) == |TextLines(TextOn(before, after, side))|
  {
    hide InRange, GapsMatch, GapAt;
    CapturedCount(view, before, after, Old);
    CapturedCount(view, before, after, New);
    forall k | 0 <= k <= |view.file.hunks|
      ensures view.Gap(k).gap.Length(side) == view.Gap(k).Total()
    {
      SidesBalance(view, before, after, side, k);
    }
  }

  lemma SidesBalance(view: FileView, before: Source, after: Source, side: Side, k: nat)
    requires IsTextFile(view.file, before, after) && k <= |view.file.hunks| && view.file.Source(side).Captured?
    ensures view.Gap(k).gap.Length(side) == view.Gap(k).Total()
  {
    hide InRange, GapAt, TextLines;
    CapturedCount(view, before, after, Old);
    CapturedCount(view, before, after, New);
    assert GapsMatch(view.file.hunks, k, before, after);
    ShorterGap(view.file.hunks, k, view.Count(Old), |TextLines(before)|, Old);
    ShorterGap(view.file.hunks, k, view.Count(New), |TextLines(after)|, New);
  }

  /** From texts to rows: for any two texts, any script between them and any layout, a file shown in full
      lists every line of each side it needs exactly once and in order; with any reveals at all the
      listing ascends and the gap rows stand for the rest. */
  lemma TextFileShowsEveryLine(view: FileView, before: Source, after: Source, side: Side)
    requires IsTextFile(view.file, before, after) && view.Gap(0).Loaded()
    requires view.layout == view.layout.ForStatus(view.file.status) && Required(view.layout, view.file.status, side)
    ensures var count := |TextLines(TextOn(before, after, side))|;
            && OnSide(view.Cells(side), side) && Ascends(Numbers(view.Cells(side)), 1, count + 1)
            && |view.Cells(side)| + view.HiddenBefore(|view.file.hunks| + 1) == count
            && (view.Gap(0).Full() ==> Numbers(view.Cells(side)) == Span(1, count + 1))
  {
    hide InRange, GapsMatch, Fits, GapsHideOwnLines, Numbers, Ascends, Span, FileView.Cells, FileView.HiddenBefore,
         TextLines, OnSide;
    TextFileFits(view, before, after, side);
    TextFileValid(view, before, after);
    PartialFileListsTheRest(view, side);
    if view.Gap(0).Full() {
      FullFileListsEveryLine(view, side);
    }
  }

  lemma TextFileValid(view: FileView, before: Source, after: Source)
    requires IsTextFile(view.file, before, after)
    ensures view.Valid()
  {
    hide InRange, GapsMatch;
  }

  /** Line `i` of the script reads as the source line of its number. */
  ghost predicate ReadsAsSource(lines: seq<PatchLine>, text: Source, side: Side, i: nat)
    requires i < |lines|
  {
    lines[i].Number(side).Some?
        && SourceDocument(text, LineStarts(text)).Line(lines[i].Number(side).value) == Some(lines[i].text)
  }

  /** Without lone carriage returns it does, unless it is the last of a text without a final newline and ends in a
      carriage return. */
  lemma HunkLineReadsAsSourceIff(changes: seq<Change>, lines: seq<PatchLine>, text: Source, side: Side, i: nat)
    requires Scripted(lines, changes) && IsScript(changes, text, side) && NoLoneCR(text) && i < |lines|
             && lines[i].kind.On(side)
    ensures ReadsAsSource(lines, text, side, i) <==>
            EndsWithLF(changes[i].value) || StripCR(changes[i].value) == changes[i].value
  {
    hide LineToken, NumberedFrom, CountOn, IsScript, TextLines, NoLoneCR;
    ScriptLineIsSourceLine(changes, lines, text, side, i);
  }

  /** For any text: every line of the script reads as the source line of its number exactly when a line feed
      follows every carriage return. */
  lemma AllLinesReadAsSourceIff(changes: seq<Change>, lines: seq<PatchLine>, text: Source, side: Side)
    requires Scripted(lines, changes) && IsScript(changes, text, side)
    ensures (forall i :: 0 <= i < |lines| && lines[i].kind.On(side) ==> ReadsAsSource(lines, text, side, i)) <==>
            EveryCRBeforeLF(text)
  {
    hide Scripted, IsScript, ReadsAsSource, Tokens, TextLines, LoneCRs;
    if EveryCRBeforeLF(text) {
      forall i | 0 <= i < |lines| && lines[i].kind.On(side)
        ensures ReadsAsSource(lines, text, side, i)
      {
        ReadsWithLF(changes, lines, text, side, i);
      }
    } else if NoLoneCR(text) {
      EndsInCR(changes, lines, text, side);
    } else {
      NoSuchLine(changes, lines, text, side);
    }
  }

  lemma ReadsWithLF(changes: seq<Change>, lines: seq<PatchLine>, text: Source, side: Side, i: nat)
    requires Scripted(lines, changes) && IsScript(changes, text, side) && EveryCRBeforeLF(text) && i < |lines|
             && lines[i].kind.On(side)
    ensures ReadsAsSource(lines, text, side, i)
  {
    hide LineToken, NumberedFrom, CountOn, IsScript, TextLines;
    HunkLineReadsAsSourceIff(changes, lines, text, side, i);
    ScriptLineIsSourceLine(changes, lines, text, side, i);
    LastTokenEnds(text, lines[i].Number(side).value - 1);
  }

  /** The last line of the script on a side has the number of lines as its own. */
  lemma LastLineOnSide(changes: seq<Change>, lines: seq<PatchLine>, text: Source, side: Side) returns (i: nat)
    requires Scripted(lines, changes) && IsScript(changes, text, side) && text != []
    ensures i < |lines| && lines[i].kind.On(side) && lines[i].Number(side) == Some(|TextLines(text)| + LoneCRs(text))
  {
    hide NumberedFrom, Tokens, TextLines, LoneCRs, ValuesOn;
    TokensCount(text);
    ScriptFits(changes, lines, text, side);
    i := LastCounted(lines, side);
    NumberOf(lines, i, side);
  }

  lemma {:induction false} LastCounted(lines: seq<PatchLine>, side: Side) returns (i: nat)
    requires CountOn(lines, side) > 0
    ensures i < |lines| && lines[i].kind.On(side) && 1 + CountOn(lines[..i], side) == CountOn(lines, side)
  {
    var init := lines[..|lines| - 1];
    if lines[|lines| - 1].kind.On(side) {
      i := |lines| - 1;
    } else {
      i := LastCounted(init, side);
      assert init[..i] == lines[..i];
    }
  }

  lemma NoSuchLine(changes: seq<Change>, lines: seq<PatchLine>, text: Source, side: Side)
    requires Scripted(lines, changes) && IsScript(changes, text, side) && !NoLoneCR(text)
    ensures exists i :: 0 <= i < |lines| && lines[i].kind.On(side) && !ReadsAsSource(lines, text, side, i)
  {
    hide Scripted, IsScript, TextLines, LoneCRs;
    NoLoneCRIff(text);
    var i := LastLineOnSide(changes, lines, text, side);
    assert !ReadsAsSource(lines, text, side, i);
  }

  lemma EndsInCR(changes: seq<Change>, lines: seq<PatchLine>, text: Source, side: Side)
    requires Scripted(lines, changes) && IsScript(changes, text, side) && NoLoneCR(text) && !EveryCRBeforeLF(text)
    ensures exists i :: 0 <= i < |lines| && lines[i].kind.On(side) && !ReadsAsSource(lines, text, side, i)
  {
    hide Scripted, IsScript, TextLines, LoneCRs, ReadsAsSource, LineToken;
    NoLoneCRIff(text);
    var i := LastLineOnSide(changes, lines, text, side);
    ScriptLineIsSourceLine(changes, lines, text, side, i);
    LastIsTheEnd(text);
    HunkLineReadsAsSourceIff(changes, lines, text, side, i);
  }
}
