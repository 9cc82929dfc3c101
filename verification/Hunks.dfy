/**
 Hunks, the numbers of their lines, and the gaps between them. A hunk of no lines on a side names
 the line before it there, as unified diffs do.
 */
module Hunks {
  import opened Bytes
  import opened SourceDocuments

  datatype Side = Old | New

  datatype LineKind = HunkHeader | Context | Added | Removed | Meta
  {
    /** Whether a line of this kind stands on a side. */
    predicate On(side: Side) {
      match this
      case Context => true
      case Added => side == New
      case Removed => side == Old
      case _ => false
    }
  }

  datatype PatchLine = PatchLine(kind: LineKind, text: Source, oldNo: Option<nat>, newNo: Option<nat>, noNewline: bool)
  {
    function Number(side: Side): Option<nat> {
      if side == Old then oldNo else newNo
    }
  }

  datatype Hunk = Hunk(oldStart: nat, oldCount: nat, newStart: nat, newCount: nat, lines: seq<PatchLine>)
  {
    function Start(side: Side): nat { if side == Old then oldStart else newStart }

    function Count(side: Side): nat { if side == Old then oldCount else newCount }

    /** The first line the hunk covers on a side, or would if it covered any. */
    function First(side: Side): nat {
      if Count(side) == 0 then Start(side) + 1 else Start(side)
    }

    function After(side: Side): nat {
      if Count(side) == 0 then Start(side) + 1 else Start(side) + Count(side)
    }
  }

  /** The numbers from `from` up to, not including, `to`. */
  function Span(from: nat, to: int): (r: seq<nat>) {
    if to <= from then [] else seq(to - from, i requires 0 <= i => from + i)
  }

  lemma SpanJoin(a: nat, b: nat, c: nat)
    requires a <= b <= c
    ensures Span(a, b) + Span(b, c) == Span(a, c)
  {
  }

  // ---- line numbers ------------------------------------------------------

  function CountOn(lines: seq<PatchLine>, side: Side): nat {
    if lines == [] then 0
    else CountOn(lines[..|lines| - 1], side) + if lines[|lines| - 1].kind.On(side) then 1 else 0
  }

  /** The numbers a side's lines carry, in order. */
  function NumbersOn(lines: seq<PatchLine>, side: Side): seq<nat> {
    if lines == [] then []
    else
      var last := lines[|lines| - 1].Number(side);
      NumbersOn(lines[..|lines| - 1], side) + if last.Some? then [last.value] else []
  }

  /** The number line `i` should carry: `start` plus the lines on that side before it. */
  function NumberAt(lines: seq<PatchLine>, i: nat, side: Side, start: nat): Option<nat>
    requires i < |lines|
  {
    if lines[i].kind.On(side) then Some(start + CountOn(lines[..i], side)) else None
  }

  ghost predicate NumberedFrom(lines: seq<PatchLine>, side: Side, start: nat) {
    forall i :: 0 <= i < |lines| ==> lines[i].Number(side) == NumberAt(lines, i, side, start)
  }

  /** The hunk's lines are numbered from its start and it has as many as it says. */
  ghost predicate Sound(hunk: Hunk, side: Side) {
    NumberedFrom(hunk.lines, side, hunk.Start(side)) && CountOn(hunk.lines, side) == hunk.Count(side)
  }

  lemma NumberedPrefix(lines: seq<PatchLine>, k: nat, side: Side, start: nat)
    requires NumberedFrom(lines, side, start) && k <= |lines|
    ensures NumberedFrom(lines[..k], side, start)
  {
    forall i | 0 <= i < k
      ensures lines[..k][i].Number(side) == NumberAt(lines[..k], i, side, start)
    {
      assert lines[..k][..i] == lines[..i];
    }
  }

  lemma {:induction false} NumbersAreASpan(lines: seq<PatchLine>, side: Side, start: nat)
    requires NumberedFrom(lines, side, start)
    ensures NumbersOn(lines, side) == Span(start, start + CountOn(lines, side))
  {
    if lines != [] {
      hide NumberedFrom, Span, NumberAt;
      var n := |lines| - 1;
      NumberedPrefix(lines, n, side, start);
      NumberedLast(lines, side, start);
      NumbersAreASpan(lines[..n], side, start);
      SpanNext(start, start + CountOn(lines[..n], side));
    }
  }

  lemma NumberedLast(lines: seq<PatchLine>, side: Side, start: nat)
    requires lines != [] && NumberedFrom(lines, side, start)
    ensures var n := |lines| - 1;
            lines[n].Number(side) == if lines[n].kind.On(side) then Some(start + CountOn(lines[..n], side)) else None
  {
    hide CountOn;
    assert lines[|lines| - 1].Number(side) == NumberAt(lines, |lines| - 1, side, start);
  }

  lemma SpanNext(from: nat, end: nat)
    requires from <= end
    ensures Span(from, end + 1) == Span(from, end) + [end]
  {
  }

  /** A sound hunk's lines are exactly those between its boundaries. */
  lemma HunkIsASpan(hunk: Hunk, side: Side)
    requires Sound(hunk, side)
    ensures NumbersOn(hunk.lines, side) == Span(hunk.First(side), hunk.After(side))
  {
    NumbersAreASpan(hunk.lines, side, hunk.Start(side));
  }

  // ---- parsing -----------------------------------------------------------

  datatype RawLine = RawContext(bytes: Source) | RawDelete(bytes: Source) | RawInsert(bytes: Source)
  {
    function Kind(): LineKind {
      match this
      case RawContext(_) => Context
      case RawDelete(_) => Removed
      case RawInsert(_) => Added
    }
  }



  function RawCount(lines: seq<RawLine>, side: Side): nat {
    if lines == [] then 0
    else RawCount(lines[..|lines| - 1], side) + if lines[|lines| - 1].Kind().On(side) then 1 else 0
  }

  /** Numbers the lines of one hunk. When the header counts the lines right, as the patch parser
      checks, the hunk is sound on both sides. */
  method NormalizeHunk(oldStart: nat, oldCount: nat, newStart: nat, newCount: nat, raw: seq<RawLine>)
    returns (hunk: Hunk)
    ensures hunk.oldStart == oldStart && hunk.oldCount == oldCount
    ensures hunk.newStart == newStart && hunk.newCount == newCount
    ensures |hunk.lines| == |raw|
    ensures forall i :: 0 <= i < |raw| ==>
                          && hunk.lines[i].kind == raw[i].Kind()
                          && hunk.lines[i].text == PatchText(raw[i].bytes)
                          && hunk.lines[i].noNewline == !EndsWithLF(raw[i].bytes)
    ensures NumberedFrom(hunk.lines, Old, oldStart) && NumberedFrom(hunk.lines, New, newStart)
    ensures RawCount(raw, Old) == oldCount ==> Sound(hunk, Old)
    ensures RawCount(raw, New) == newCount ==> Sound(hunk, New)
  {
    hide NumberedFrom, CountOn, PatchText, EndsWithLF;
    NothingNumbered(oldStart, newStart);
    var oldLine, newLine := oldStart, newStart;
    var lines: seq<PatchLine> := [];
    for i := 0 to |raw|
      invariant |lines| == i
      invariant oldLine == oldStart + CountOn(lines, Old) && newLine == newStart + CountOn(lines, New)
      invariant CountOn(lines, Old) == RawCount(raw[..i], Old) && CountOn(lines, New) == RawCount(raw[..i], New)
      invariant NumberedFrom(lines, Old, oldStart) && NumberedFrom(lines, New, newStart)
      invariant forall j :: 0 <= j < i ==>
                              && lines[j].kind == raw[j].Kind()
                              && lines[j].text == PatchText(raw[j].bytes)
                              && lines[j].noNewline == !EndsWithLF(raw[j].bytes)
    {
      var kind := raw[i].Kind();
      var oldNo, newNo := None, None;
      if kind != Added {
        oldNo := Some(oldLine);
        oldLine := oldLine + 1;
      }
      if kind != Removed {
        newNo := Some(newLine);
        newLine := newLine + 1;
      }
      var line := PatchLine(kind, PatchText(raw[i].bytes), oldNo, newNo, !EndsWithLF(raw[i].bytes));
      NumberedPush(lines, line, Old, oldStart);
      NumberedPush(lines, line, New, newStart);
      assert raw[..i + 1][..i] == raw[..i];
      lines := lines + [line];
    }
    assert raw[..|raw|] == raw;
    hunk := Hunk(oldStart, oldCount, newStart, newCount, lines);
  }

  lemma NothingNumbered(oldStart: nat, newStart: nat)
    ensures NumberedFrom([], Old, oldStart) && NumberedFrom([], New, newStart)
    ensures CountOn([], Old) == 0 && CountOn([], New) == 0
  {
  }

  lemma NumberedPush(lines: seq<PatchLine>, line: PatchLine, side: Side, start: nat)
    requires NumberedFrom(lines, side, start)
    requires line.Number(side) == if line.kind.On(side) then Some(start + CountOn(lines, side)) else None
    ensures NumberedFrom(lines + [line], side, start)
    ensures CountOn(lines + [line], side) == CountOn(lines, side) + if line.kind.On(side) then 1 else 0
  {
    var all := lines + [line];
    assert all[..|lines|] == lines;
    forall i | 0 <= i < |all|
      ensures all[i].Number(side) == NumberAt(all, i, side, start)
    {
      if i < |lines| {
        assert all[..i] == lines[..i];
      }
    }
  }

  // ---- gaps --------------------------------------------------------------

  /** One-based half-open intervals of unchanged lines, one per side. */
  datatype GapInterval = GapInterval(oldLines: Range, newLines: Range)
  {
    function On(side: Side): Range { if side == Old then oldLines else newLines }

    function Length(side: Side): nat { Monus(On(side).end, On(side).start) }

    /** The longer side: what a gap row counts. */
    function Total(): nat { Max(Length(Old), Length(New)) }
  }

  /** The line after the first `k` hunks, never before the line after fewer of them. */
  function NextLine(hunks: seq<Hunk>, k: nat, side: Side): (r: nat)
    requires k <= |hunks|
    ensures r >= 1
  {
    if k == 0 then 1
    else
      var before := NextLine(hunks, k - 1, side);
      Max(hunks[k - 1].After(side), Max(hunks[k - 1].First(side), before))
  }

  /** Gap `k` of a file with `count` lines on a side. */
  function GapAt(hunks: seq<Hunk>, k: nat, count: nat, side: Side): Range
    requires k <= |hunks|
  {
    var start := NextLine(hunks, k, side);
    Range(start, Max(if k < |hunks| then hunks[k].First(side) else count + 1, start))
  }

  ghost predicate AreGaps(gaps: seq<GapInterval>, hunks: seq<Hunk>, oldCount: nat, newCount: nat) {
    && |gaps| == |hunks| + 1
    && forall k :: 0 <= k < |gaps| ==>
                     gaps[k] == GapInterval(GapAt(hunks, k, oldCount, Old), GapAt(hunks, k, newCount, New))
  }

  method GapsForFile(hunks: seq<Hunk>, oldCount: nat, newCount: nat) returns (gaps: seq<GapInterval>)
    ensures AreGaps(gaps, hunks, oldCount, newCount)
  {
    if hunks == [] {
      return [GapInterval(Range(1, oldCount + 1), Range(1, newCount + 1))];
    }
    gaps := [];
    var oldNext, newNext := 1, 1;
    for i := 0 to |hunks|
      invariant |gaps| == i && oldNext == NextLine(hunks, i, Old) && newNext == NextLine(hunks, i, New)
      invariant forall k :: 0 <= k < i ==>
                              gaps[k] == GapInterval(GapAt(hunks, k, oldCount, Old), GapAt(hunks, k, newCount, New))
    {
      var hunk := hunks[i];
      var oldEnd, newEnd := Max(hunk.First(Old), oldNext), Max(hunk.First(New), newNext);
      gaps := gaps + [GapInterval(Range(oldNext, oldEnd), Range(newNext, newEnd))];
      oldNext, newNext := Max(hunk.After(Old), oldEnd), Max(hunk.After(New), newEnd);
    }
    gaps := gaps + [GapInterval(Range(oldNext, Max(oldCount + 1, oldNext)),
                                Range(newNext, Max(newCount + 1, newNext)))];
  }

  ghost predicate AllSound(hunks: seq<Hunk>, side: Side) {
    forall k :: 0 <= k < |hunks| ==> Sound(hunks[k], side)
  }

  ghost predicate Ordered(hunks: seq<Hunk>, side: Side) {
    forall k :: 0 <= k < |hunks| ==> Reached(hunks, k, side) <= hunks[k].First(side)
  }

  /** The hunks are sound, in order, and within the file's `count` lines. */
  ghost predicate InRange(hunks: seq<Hunk>, side: Side, count: nat) {
    AllSound(hunks, side) && Ordered(hunks, side) && Reached(hunks, |hunks|, side) <= count + 1
  }

  lemma HunkAt(hunks: seq<Hunk>, k: nat, side: Side, count: nat)
    requires InRange(hunks, side, count) && k < |hunks|
    ensures Sound(hunks[k], side) && Reached(hunks, k, side) <= hunks[k].First(side)
  {
  }

  /** Where hunk `k` may begin: after the hunk before it. */
  function Reached(hunks: seq<Hunk>, k: nat, side: Side): nat
    requires k <= |hunks|
  {
    if k == 0 then 1 else hunks[k - 1].After(side)
  }

  lemma {:induction false} NextLineIsReached(hunks: seq<Hunk>, k: nat, side: Side)
    requires k <= |hunks| && Ordered(hunks, side)
    ensures NextLine(hunks, k, side) == Reached(hunks, k, side)
  {
    if k > 0 {
      NextLineIsReached(hunks, k - 1, side);
    }
  }

  /** The lines of the first `k` gaps and hunks, in order. */
  ghost function Interleaved(hunks: seq<Hunk>, k: nat, count: nat, side: Side): seq<nat>
    requires k <= |hunks|
  {
    if k == 0 then []
    else
      var gap := GapAt(hunks, k - 1, count, side);
      Interleaved(hunks, k - 1, count, side) + Span(gap.start, gap.end) + NumbersOn(hunks[k - 1].lines, side)
  }

  lemma {:induction false} InterleavedIsASpan(hunks: seq<Hunk>, k: nat, count: nat, side: Side)
    requires InRange(hunks, side, count) && k <= |hunks|
    ensures Interleaved(hunks, k, count, side) == Span(1, Reached(hunks, k, side))
    ensures NextLine(hunks, k, side) == Reached(hunks, k, side) >= 1
  {
    hide Sound, NumbersOn, Ordered;
    NextLineIsReached(hunks, k, side);
    if k > 0 {
      hide Span;
      InterleavedIsASpan(hunks, k - 1, count, side);
      var from, first, after := Reached(hunks, k - 1, side), hunks[k - 1].First(side), hunks[k - 1].After(side);
      HunkAt(hunks, k - 1, side, count);
      HunkIsASpan(hunks[k - 1], side);
      SpanJoin(1, from, first);
      SpanJoin(1, first, after);
    }
  }

  /** Gaps and hunks tile the file: every line is in exactly one of them, in order. */
  lemma GapsAndHunksTile(hunks: seq<Hunk>, side: Side, count: nat)
    requires InRange(hunks, side, count)
    ensures var last := GapAt(hunks, |hunks|, count, side);
            Interleaved(hunks, |hunks|, count, side) + Span(last.start, last.end) == Span(1, count + 1)
  {
    InterleavedIsASpan(hunks, |hunks|, count, side);
    SpanJoin(1, Reached(hunks, |hunks|, side), count + 1);
  }
}
