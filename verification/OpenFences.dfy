/**
 A fenced code block whose closing fence has not arrived. The document keeps extending its lines
 from the bytes of each new chunk. This module says what the kept lines are after any number of
 chunks, and exactly when they are the lines a from-scratch pass would produce.
 */
module OpenFences {
  import opened Bytes
  import opened LineIndexing
  import opened FenceLines
  import opened CodeBlocks

  datatype OpenFence = OpenFence(
    block: nat,
    marker: byte,
    count: nat,
    start: nat,
    contentStart: nat,
    lineStart: nat,
    complete: nat,
    state: FenceLine)

  /** `fence` describes the complete opening line at `fence.start`. */
  ghost predicate Opened(fence: OpenFence, source: Source) {
    && fence.start < fence.contentStart <= |source|
    && source[fence.contentStart - 1] == LF
    && LF !in source[fence.start..fence.contentStart - 1]
    && FenceMarker(source[fence.start..fence.contentStart]) == (fence.marker, fence.count)
    && IsMarkerByte(fence.marker)
  }

  /** A carriage return inside `line` already follows a closer. */
  ghost predicate ClosedByCR(line: Source, marker: byte, count: nat) {
    exists j :: 0 <= j < |line| && line[j] == CR && ScanLine(line[..j], marker, count).Closes(count)
  }

  ghost function Split(fence: OpenFence, source: Source): (r: seq<Source>)
    requires fence.contentStart <= |source|
    ensures r != []
  {
    SplitLF(source[fence.contentStart..])
  }

  ghost function CurrentLine(fence: OpenFence, source: Source): Source
    requires fence.contentStart <= |source|
  {
    LastPiece(source[fence.contentStart..])
  }

  /** The scanner's registers are those of a scan of the whole content from its first byte. */
  ghost predicate Scanned(fence: OpenFence, source: Source) {
    && fence.start < fence.contentStart <= |source|
    && Opened(fence, source)
    && fence.complete == |Split(fence, source)| - 1
    && fence.lineStart + |CurrentLine(fence, source)| == |source|
    && fence.state == ScanLine(CurrentLine(fence, source), fence.marker, fence.count)
    && !ClosedByCR(CurrentLine(fence, source), fence.marker, fence.count)
  }

  predicate Provisional(fence: OpenFence) {
    fence.state.Closes(fence.count)
  }

  predicate ClosesAt(fence: OpenFence, b: byte) {
    (b == LF || b == CR) && Provisional(fence)
  }

  function Advance(fence: OpenFence, position: nat, b: byte): OpenFence {
    if b == LF then fence.(complete := fence.complete + 1, lineStart := position + 1, state := Indent(0))
    else fence.(state := fence.state.Feed(b, fence.marker, fence.count))
  }

  /** Appending bytes and moving the scanner leave the opening line as it is. */
  lemma OpenedStable(fence: OpenFence, moved: OpenFence, source: Source, more: Source)
    requires Opened(fence, source)
    requires moved == fence.(lineStart := moved.lineStart, complete := moved.complete, state := moved.state)
    ensures Opened(moved, source + more)
  {
    var whole := source + more;
    assert whole[fence.start..fence.contentStart - 1] == source[fence.start..fence.contentStart - 1];
    assert whole[fence.start..fence.contentStart] == source[fence.start..fence.contentStart];
  }

  lemma ClosedByCRPush(line: Source, b: byte, marker: byte, count: nat)
    requires !ClosedByCR(line, marker, count) && !(b == CR && ScanLine(line, marker, count).Closes(count))
    ensures !ClosedByCR(line + [b], marker, count)
  {
    var longer := line + [b];
    forall j | 0 <= j < |longer| && longer[j] == CR
      ensures !ScanLine(longer[..j], marker, count).Closes(count)
    {
      assert longer[..j] == line[..j];
      assert j == |line| ==> line[..j] == line;
    }
  }

  lemma ScanStep(fence: OpenFence, source: Source, b: byte)
    requires Scanned(fence, source) && !ClosesAt(fence, b)
    ensures Scanned(Advance(fence, |source|, b), source + [b])
  {
    hide SplitLF, Opened;
    var content, line := source[fence.contentStart..], CurrentLine(fence, source);
    assert (source + [b])[fence.contentStart..] == content + [b];
    OpenedStable(fence, Advance(fence, |source|, b), source, [b]);
    SplitPush(content, b);
    if b != LF {
      ScanPush(line, b, fence.marker, fence.count);
      ClosedByCRPush(line, b, fence.marker, fence.count);
    }
  }

  // ---- the from-scratch answer -------------------------------------------

  /** When no carriage return closed the line early, the automaton and the batch scanner agree. */
  lemma ProvisionalIffClosesLine(line: Source, marker: byte, count: nat)
    requires !ClosedByCR(line, marker, count) && IsMarkerByte(marker)
    ensures ScanLine(line, marker, count).Closes(count) <==> ClosesLine(line, marker, count)
  {
    hide ClosesLine;
    ClosesLineIsScan(line, marker, count);
    var r := BeforeCR(line);
    if r == |line| {
      assert line[..r] == line;
    } else {
      assert line[..r + 1][..r] == line[..r];
      assert ScanLine(line[..r + 1], marker, count) == Content;
      ContentSticks(line, r + 1, marker, count);
    }
  }

  lemma FirstLFAt(s: Source, k: nat)
    requires k < |s| && s[k] == LF && LF !in s[..k]
    ensures FirstLF(s) == k
  {
    PrefixWithout(s, k, LF);
    PrefixWithout(s, FirstLF(s), LF);
  }

  lemma OpeningLine(fence: OpenFence, source: Source, end: nat)
    requires end <= |source| && Opened(fence, source[..end])
    ensures FirstLF(source[fence.start..end]) == fence.contentStart - 1 - fence.start
    ensures FenceMarker(source[fence.start..fence.contentStart]) == (fence.marker, fence.count)
  {
    var start, cs := fence.start, fence.contentStart;
    var block := source[start..end];
    assert block[..cs - 1 - start] == source[..end][start..cs - 1];
    FirstLFAt(block, cs - 1 - start);
    assert source[start..cs] == source[..end][start..cs];
  }

  lemma ContentRangeOfOpened(start: nat, cs: nat, end: nat, source: Source, marker: byte, count: nat)
    requires start < cs < end <= |source|
    requires FirstLF(source[start..end]) == cs - 1 - start
    requires FenceMarker(source[start..cs]) == (marker, count)
    ensures |LastPiece(source[cs..end])| <= end - cs
    ensures var lastLine := end - |LastPiece(source[cs..end])|;
            ContentRange(Range(start, end), source)
            == FencedContentBounds(cs, if ClosesLine(source[lastLine..end], marker, count) then Some(lastLine)
                                   else None, end, source)
  {
    hide SplitLF, FenceMarker, FencedContentBounds, ClosesLine;
    SplitLast(source[cs..end]);
  }

  /** The bytes after the last line feed are the line being scanned. */
  lemma CurrentLineAtEnd(cs: nat, end: nat, source: Source)
    requires cs <= end <= |source|
    ensures var line := LastPiece(source[cs..end]);
            |line| <= end - cs && source[end - |line|..end] == line
  {
    hide SplitLF;
    var content := source[cs..end];
    SplitLast(content);
    var line := LastPiece(content);
    SubSlice(source, cs, end, |content| - |line|, |line|);
    assert content[|content| - |line|..|content| - |line| + |line|] == line;
  }

  /** The batch content range of the block up to `end`, in terms of the scanner's registers. */
  lemma ContentRangeOfScanned(fence: OpenFence, source: Source, end: nat)
    requires end <= |source| && Scanned(fence, source[..end])
    ensures fence.lineStart <= end
    ensures ContentRange(Range(fence.start, end), source)
         == FencedContentBounds(fence.contentStart, if Provisional(fence) then Some(fence.lineStart)
                                else None, end, source)
  {
    hide SplitLF, FenceMarker, ClosesLine;
    var cs := fence.contentStart;
    assert source[..end][cs..] == source[cs..end];
    OpeningLine(fence, source, end);
    CurrentLineAtEnd(cs, end, source);
    if cs < end {
      ContentRangeOfOpened(fence.start, cs, end, source, fence.marker, fence.count);
      ProvisionalIffClosesLine(LastPiece(source[cs..end]), fence.marker, fence.count);
    }
  }

  // ---- what the kept lines are -------------------------------------------

  /** How a kept line can differ from the from-scratch one: a carriage return before its line feed
      may be missing from the bytes its text was taken from, or from its source range as well. */
  datatype Clip = Exact | TextOnly | TextAndRange

  function Clipped(p: Piece, clip: Clip, range: SourceRange): Piece {
    match clip
    case Exact => p
    case TextOnly => p.(kept := StripCR(p.kept))
    case TextAndRange => Piece(p.line.(source := range), StripCR(p.kept))
  }

  ghost function ShortRange(split: seq<Source>, i: nat, start: nat, source: Source): SourceRange
    requires i < |split|
  {
    var offset := start + Extent(split[..i]);
    SourceRangeOf(Range(offset, offset + |StripCR(split[i])|), source)
  }

  ghost function ClippedAt(split: seq<Source>, i: nat, start: nat, source: Source, clip: Clip): Piece
    requires i < |split|
  {
    Clipped(PieceAt(split, i, start, source), clip, ShortRange(split, i, start, source))
  }

  ghost function Kept(split: seq<Source>, clips: seq<Clip>, start: nat, source: Source): seq<Piece>
    requires |clips| <= |split|
  {
    seq(|clips|, i requires 0 <= i < |clips| => ClippedAt(split, i, start, source, clips[i]))
  }

  predicate EndsWithCR(s: Source) { s != [] && s[|s| - 1] == CR }

  /** A provisional closing line makes the batch rules drop the line ending before it. */
  ghost function ProvisionalClips(split: seq<Source>): (r: seq<Clip>)
    requires split != []
    ensures |r| == |split| - 1
  {
    var k := |split| - 1;
    seq(k, i requires 0 <= i < k => if i == k - 1 && EndsWithCR(split[i]) then TextAndRange else Exact)
  }

  /** With a provisional closing line, the content before it is no bytes at all. */
  ghost predicate ProvisionallyEmpty(split: seq<Source>) {
    |split| == 1 || (|split| == 2 && StripCR(split[0]) == [])
  }

  ghost predicate ClipsValid(fence: OpenFence, source: Source, clips: seq<Clip>)
    requires fence.contentStart <= |source|
  {
    var split := Split(fence, source);
    && |clips| == |split| - 1
    && (forall i :: 0 <= i < |clips| && clips[i] != Exact ==> EndsWithCR(split[i]))
    && (Provisional(fence) ==> clips == ProvisionalClips(split))
    && (!Provisional(fence) && clips != [] ==> clips[|clips| - 1] != TextAndRange)
  }

  ghost function KeptAndOpen(fence: OpenFence, source: Source, clips: seq<Clip>): seq<Piece>
    requires fence.contentStart <= |source| && |clips| == |Split(fence, source)| - 1
  {
    var split := Split(fence, source);
    var kept := Kept(split, clips, fence.contentStart, source);
    if Provisional(fence) then kept
    else kept + [PieceAt(split, |split| - 1, fence.contentStart, source)]
  }

  ghost predicate NoContent(fence: OpenFence, source: Source)
    requires fence.contentStart <= |source|
  {
    if Provisional(fence) then ProvisionallyEmpty(Split(fence, source)) else |source| == fence.contentStart
  }

  /** The body of the open block, whose own target is `base`, as a function of source and clips. */
  ghost function TrackedBody(fence: OpenFence, source: Source, clips: seq<Clip>, base: nat): Body
    requires fence.contentStart <= |source| && |clips| == |Split(fence, source)| - 1
  {
    if NoContent(fence, source) then NOTHING
    else Lay(AimPieces(KeptAndOpen(fence, source, clips), base, 0))
  }

  ghost predicate Tracks(fence: OpenFence, source: Source, clips: seq<Clip>, base: nat, body: Body) {
    Scanned(fence, source) && ClipsValid(fence, source, clips) && body == TrackedBody(fence, source, clips, base)
  }

  /** The body a from-scratch pass over the block `start..end` of `source` gives. */
  ghost function ScratchBody(start: nat, end: nat, source: Source, base: nat): Body
    requires start <= end
  {
    AimLines(FencedBody(ContentRange(Range(start, end), source), source), base, 0)
  }

  /** Clips a reader of the lines cannot notice. */
  ghost predicate Harmless(split: seq<Source>, clips: seq<Clip>)
    requires |clips| <= |split|
  {
    forall i :: 0 <= i < |clips| ==>
                  clips[i] == Exact || (clips[i] == TextOnly && StripCR(StripCR(split[i])) == StripCR(split[i]))
  }

  // ---- provisional closers -----------------------------------------------

  /** Splitting the content before a provisional closing line yields the earlier lines, the last
      one without its carriage return. */
  lemma SplitBeforeCloser(content: Source)
    requires |SplitLF(content)| > 1
    ensures var split := SplitLF(content);
            var k := |split| - 1;
            var cut := |content| - |split[k]| - 1;
            && 0 <= cut <= |content|
            && SplitLF(StripCR(content[..cut])) == split[..k - 1] + [StripCR(split[k - 1])]
            && (StripCR(content[..cut]) == [] <==> ProvisionallyEmpty(split))
            && (EndsWithCR(content[..cut]) <==> EndsWithCR(split[k - 1]))
  {
    var split := SplitLF(content);
    var k := |split| - 1;
    SplitWithoutLast(content);
    var before := content[..|content| - |split[k]| - 1];
    assert SplitLF(before) == split[..k];
    assert split[..k][..k - 1] == split[..k - 1];
    SplitStripped(before);
  }

  lemma SplitStripped(before: Source)
    ensures var split := SplitLF(before);
            var k := |split|;
            && SplitLF(StripCR(before)) == split[..k - 1] + [StripCR(split[k - 1])]
            && (StripCR(before) == [] <==> k == 1 && StripCR(split[0]) == [])
            && (EndsWithCR(before) <==> EndsWithCR(split[k - 1]))
  {
    hide SplitLF;
    SplitLast(before);
    if EndsWithCR(before) {
      var short := before[..|before| - 1];
      assert before == short + [CR];
      SplitOfCR(short);
    } else {
      var split := SplitLF(before);
      var last := split[|split| - 1];
      assert split == split[..|split| - 1] + [last];
      assert last != [] ==> before[|before| - 1] == before[|before| - |last|..][|last| - 1];
    }
  }

  /** A carriage return at the end is the end of the last piece. */
  lemma SplitOfCR(short: Source)
    ensures var split := SplitLF(short + [CR]);
            var k := |split|;
            && SplitLF(short) == split[..k - 1] + [StripCR(split[k - 1])]
            && (short == [] <==> k == 1 && StripCR(split[0]) == [])
            && EndsWithCR(split[k - 1])
  {
    hide SplitLF;
    SplitPush(short, CR);
    SplitLast(short);
    var split := SplitLF(short);
    assert split == split[..|split| - 1] + [split[|split| - 1]];
  }

  /** The line the scanner is in starts right after the complete lines. */
  lemma ContentExtent(cs: nat, end: nat, source: Source)
    requires cs <= end <= |source|
    ensures var split := SplitLF(source[cs..end]);
            var k := |split| - 1;
            && |split[k]| <= end - cs
            && cs + Extent(split[..k]) == end - |split[k]|
            && (k > 0 ==> source[end - |split[k]| - 1] == LF)
            && (k > 0 <==> |split[k]| < end - cs)
  {
    SplitExtent(source[cs..end]);
    SplitLast(source[cs..end]);
  }

  lemma ProvisionalPieces(split: seq<Source>, cs: nat, source: Source)
    requires |split| > 1
    ensures var k := |split| - 1;
            Pieces(split[..k - 1] + [StripCR(split[k - 1])], cs, source)
            == Kept(split, ProvisionalClips(split), cs, source)
  {
    hide SourceRangeOf, LineOf, Extent;
    var k := |split| - 1;
    var short := split[..k - 1] + [StripCR(split[k - 1])];
    var pieces, kept := Pieces(short, cs, source), Kept(split, ProvisionalClips(split), cs, source);
    forall i | 0 <= i < k
      ensures pieces[i] == kept[i]
    {
      assert short[..i] == split[..i];
    }
  }

  /** Batch bounds when the current line is a provisional closer. */
  lemma ProvisionalBounds(fence: OpenFence, source: Source, end: nat)
    requires end <= |source| && Scanned(fence, source[..end])
    ensures var content := FencedContentBounds(fence.contentStart, Some(fence.lineStart), end, source);
            var split := SplitLF(source[fence.contentStart..end]);
            var k := |split| - 1;
            if k == 0 then content.start == content.end
            else
              var cut := |source[fence.contentStart..end]| - |split[k]| - 1;
              && 0 <= cut <= |source[fence.contentStart..end]|
              && content.start == fence.contentStart
              && source[content.start..content.end] == StripCR(source[fence.contentStart..end][..cut])
  {
    hide SplitLF, FenceMarker, ScanLine;
    var cs := fence.contentStart;
    assert source[..end][cs..] == source[cs..end];
    ContentExtent(cs, end, source);
    assert source[cs - 1] == source[..end][cs - 1];
    var split := SplitLF(source[cs..end]);
    var k := |split| - 1;
    if k > 0 {
      var cut := |source[cs..end]| - |split[k]| - 1;
      assert source[cs..end][..cut] == source[cs..cs + cut];
    }
  }

  /** Under a provisional closer the from-scratch lines are the kept ones, clipped at the last. */
  lemma ProvisionalScratch(fence: OpenFence, source: Source, end: nat)
    requires end <= |source| && Scanned(fence, source[..end]) && Provisional(fence)
    ensures var split := SplitLF(source[fence.contentStart..end]);
            FencedBody(ContentRange(Range(fence.start, end), source), source)
            == if ProvisionallyEmpty(split) then NOTHING
               else Lay(Kept(split, ProvisionalClips(split), fence.contentStart, source))
  {
    hide SplitLF, ContentRange, FencedContentBounds, Lay, Kept, Opened, ClosedByCR, ProvisionalClips, StripCR;
    var content := source[fence.contentStart..end];
    ContentRangeOfScanned(fence, source, end);
    ProvisionalBounds(fence, source, end);
    if |SplitLF(content)| > 1 {
      SplitBeforeCloser(content);
      ProvisionalPieces(SplitLF(content), fence.contentStart, source);
    }
  }

  /** Otherwise the from-scratch lines are all the lines of the content. */
  lemma OpenScratch(fence: OpenFence, source: Source, end: nat)
    requires end <= |source| && Scanned(fence, source[..end]) && !Provisional(fence)
    ensures FencedBody(ContentRange(Range(fence.start, end), source), source)
         == if end == fence.contentStart then NOTHING
            else Lay(Pieces(SplitLF(source[fence.contentStart..end]), fence.contentStart, source))
  {
    hide SplitLF, ContentRange, Lay;
    ContentRangeOfScanned(fence, source, end);
  }

  lemma {:induction false} LayCongruent(a: seq<Piece>, b: seq<Piece>)
    requires |a| == |b|
    requires forall i :: 0 <= i < |a| ==> a[i].line == b[i].line && StripCR(a[i].kept) == StripCR(b[i].kept)
    ensures Lay(a) == Lay(b)
  {
    if a != [] {
      LayCongruent(a[..|a| - 1], b[..|b| - 1]);
    }
  }

  /** The exact condition: the kept lines are the from-scratch lines if and only if the current line
      is a provisional closer or no clip shows. */
  lemma TrackedIsScratchIffHarmless(fence: OpenFence, source: Source, clips: seq<Clip>, base: nat)
    requires Scanned(fence, source) && ClipsValid(fence, source, clips)
    ensures TrackedBody(fence, source, clips, base) == ScratchBody(fence.start, |source|, source, base)
       <==> Provisional(fence) || Harmless(Split(fence, source), clips)
  {
    hide SplitLF, ContentRange, Lay, Opened, ClosedByCR, AimPieces, AimLines, Kept, ProvisionalClips, Harmless;
    assert source[..|source|] == source;
    assert source[fence.contentStart..|source|] == source[fence.contentStart..];
    var split := Split(fence, source);
    if Provisional(fence) {
      ProvisionalScratch(fence, source, |source|);
      LayAimed(Kept(split, clips, fence.contentStart, source), base, 0);
      AimedNothing(base, 0);
    } else {
      OpenScratch(fence, source, |source|);
      AimedNothing(base, 0);
      LayAimed(Pieces(split, fence.contentStart, source), base, 0);
      ClippedIffHarmless(split, clips, fence.contentStart, source, base);
      if |source| == fence.contentStart {
        assert source[fence.contentStart..] == [];
        EmptySplit();
        NoClips(split);
      }
    }
  }

  lemma EmptySplit()
    ensures SplitLF([]) == [[]]
  {
  }

  lemma NoClips(split: seq<Source>)
    ensures Harmless(split, [])
  {
  }

  lemma AimedNothing(base: nat, from: nat)
    ensures AimLines(NOTHING, base, from) == NOTHING
  {
  }

  /** Whether clips show in the laid-out lines. */
  lemma ClippedIffHarmless(split: seq<Source>, clips: seq<Clip>, cs: nat, source: Source, base: nat)
    requires |clips| + 1 == |split|
    requires forall i :: 0 <= i < |clips| && clips[i] != Exact ==> EndsWithCR(split[i])
    ensures var kept := Kept(split, clips, cs, source) + [PieceAt(split, |split| - 1, cs, source)];
            Lay(AimPieces(kept, base, 0)) == Lay(AimPieces(Pieces(split, cs, source), base, 0)) <==>
                Harmless(split, clips)
  {
    hide Lay, SplitLF, Extent, LineOf;
    var kept := AimPieces(Kept(split, clips, cs, source) + [PieceAt(split, |split| - 1, cs, source)], base, 0);
    var whole := AimPieces(Pieces(split, cs, source), base, 0);
    if Lay(kept) == Lay(whole) {
      forall i | 0 <= i < |clips|
        ensures clips[i] == Exact || (clips[i] == TextOnly && StripCR(StripCR(split[i])) == StripCR(split[i]))
      {
        LayAt(kept, i);
        LayAt(whole, i);
        assert kept[i].line.source.bytes == whole[i].line.source.bytes;
      }
    }
    if Harmless(split, clips) {
      forall i | 0 <= i < |whole|
        ensures kept[i].line == whole[i].line && StripCR(kept[i].kept) == StripCR(whole[i].kept)
      {
      }
      LayCongruent(kept, whole);
    }
  }
}
