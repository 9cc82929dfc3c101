/**
 Small documents as a parser would see them: the blocks it returns for them, and what an open fence of
 three backticks is scanned to.
 */
module SampleParses {
  import opened Bytes
  import opened LineIndexing
  import opened FenceLines
  import opened CodeBlocks
  import opened OpenFences
  import opened FenceExtension
  import opened FenceRuns
  import opened FenceTargets
  import opened Targets
  import opened Settling
  import opened TailParses
  import opened Incremental

  const NOTHING_PARSED: Parsed := Parsed([], map[], [])

  function TextBlock(bytes: Range, content: Source, source: Source): Block {
    Block(SourceRangeOf(bytes, source), Paragraph(content), None)
  }

  function HeadingBlock(bytes: Range, level: nat, content: Source, source: Source): Block {
    Block(SourceRangeOf(bytes, source), Heading(level, content), None)
  }

  function FenceBlock(bytes: Range, source: Source): Block
    requires bytes.start <= bytes.end <= |source|
  {
    var content := ContentRange(bytes, source);
    var range := SourceRangeOf(bytes, source);
    Block(range, Code(CodeBlock(Some([]), range, SourceRangeOf(content, source), FencedBody(content, source), None)),
          None)
  }

  lemma NothingIsWellParsed(source: Source, start: nat)
    ensures WellParsed(NOTHING_PARSED, source, start)
  {
  }

  /** One block on its own. */
  lemma OneBlock(block: Block, source: Source, start: nat)
    requires start <= block.source.bytes.start < block.source.bytes.end <= |source| && NodesWithin(block, source)
    ensures TailLayout([block], source, start)
  {
    hide NodesWithin;
  }

  lemma TwoBlocks(a: Block, b: Block, source: Source, start: nat)
    requires start <= a.source.bytes.start < a.source.bytes.end <= b.source.bytes.start < b.source.bytes.end <= |source|
    requires NodesWithin(a, source) && NodesWithin(b, source)
    ensures TailLayout([a, b], source, start)
  {
    hide NodesWithin;
  }

  lemma ThreeBlocks(a: Block, b: Block, c: Block, source: Source, start: nat)
    requires start <= a.source.bytes.start < a.source.bytes.end <= b.source.bytes.start < b.source.bytes.end
    requires b.source.bytes.end <= c.source.bytes.start < c.source.bytes.end <= |source|
    requires NodesWithin(a, source) && NodesWithin(b, source) && NodesWithin(c, source)
    ensures TailLayout([a, b, c], source, start)
  {
    hide NodesWithin;
  }

  lemma HeadingFits(bytes: Range, level: nat, content: Source, source: Source)
    requires bytes.start < bytes.end <= |source|
    ensures var block := HeadingBlock(bytes, level, content, source);
            block.source.bytes == bytes && NodesWithin(block, source) && FreshFence(block, source)
  {
    hide LineStart;
    var block := HeadingBlock(bytes, level, content, source);
    assert NodesOf(block) == [Node(None, HeadingTarget, block.source)];
  }

  lemma TextFits(bytes: Range, content: Source, source: Source)
    requires bytes.start < bytes.end <= |source|
    ensures var block := TextBlock(bytes, content, source);
            block.source.bytes == bytes && NodesWithin(block, source) && FreshFence(block, source)
  {
    hide LineStart;
    var block := TextBlock(bytes, content, source);
    assert NodesOf(block) == [Node(None, ParagraphTarget, block.source)];
  }

  /** The opening line from `start` to `contentStart` begins with exactly three backticks. */
  ghost predicate OpensWithTicks(source: Source, start: nat, contentStart: nat) {
    && start + 3 < contentStart <= |source| && source[start..start + 3] == TICKS && source[start + 3] != BACKTICK
    && source[contentStart - 1] == LF && LF !in source[start..contentStart - 1]
  }

  lemma OpeningLineOfTicks(source: Source, start: nat, contentStart: nat)
    requires OpensWithTicks(source, start, contentStart)
    ensures FirstLF(source[start..]) == contentStart - 1 - start
    ensures FenceMarker(source[start..contentStart]) == (BACKTICK, 3)
  {
    var line := source[start..contentStart];
    assert source[start..][..contentStart - 1 - start] == source[start..contentStart - 1];
    FirstLFAt(source[start..], contentStart - 1 - start);
    forall i | 0 <= i < 3
      ensures line[i] == BACKTICK
    {
      assert line[i] == source[start..start + 3][i];
    }
    LeadingRunIs(line, BACKTICK, 3);
    assert LeadingBlanks(line) == 0 && line[0..] == line;
  }

  /** A fence open at the end of a source without carriage returns in its content. */
  lemma OpenFenceFits(source: Source, start: nat, contentStart: nat)
    requires OpensWithTicks(source, start, contentStart) && CR !in source[contentStart..]
    ensures var block := FenceBlock(Range(start, |source|), source);
            block.source.bytes == Range(start, |source|) && NodesWithin(block, source) && FreshFence(block, source)
  {
    hide LineStart, ContentRange, FencedBody, ClosedOrScannable, NodesFromLine, NodesBeforeEnd;
    var block := FenceBlock(Range(start, |source|), source);
    TicksAreScannable(source, start, contentStart);
    FenceNodes(block, Range(start, |source|), source);
  }

  lemma TicksAreScannable(source: Source, start: nat, contentStart: nat)
    requires OpensWithTicks(source, start, contentStart) && CR !in source[contentStart..]
    ensures ClosedOrScannable(Range(start, |source|), source)
  {
    hide SplitLF, FenceMarker, ScanLine, FirstLF;
    OpeningLineOfTicks(source, start, contentStart);
    var content := source[contentStart..];
    SplitLast(content);
    var line := LastPiece(content);
    assert forall j :: 0 <= j < |line| ==> line[j] == content[|content| - |line| + j];
  }

  lemma FenceNodes(block: Block, bytes: Range, source: Source)
    requires bytes.start < bytes.end <= |source| && block == FenceBlock(bytes, source)
    ensures NodesFromLine(block, source)
    ensures ContentRange(bytes, source).end < bytes.end ==> NodesBeforeEnd(block)
  {
    hide NodesFromLine, ContentRange, FencedBody, ScratchBody;
    var body := block.kind.code.body;
    ScratchLinesAscend(bytes.start, bytes.end, source, 0);
    SameStarts(body, bytes, source);
    CodeFromLine(block, source);
    CodeBlockNodes(block);
  }

  lemma SameStarts(body: Body, bytes: Range, source: Source)
    requires bytes.start <= bytes.end <= |source| && body == FencedBody(ContentRange(bytes, source), source)
    ensures var lines := ScratchBody(bytes.start, bytes.end, source, 0).lines;
            |lines| == |body.lines| && forall i :: 0 <= i < |lines| ==> lines[i].source == body.lines[i].source
  {
    hide FencedBody, ContentRange;
  }

  /** A fence closed by three backticks right behind its opening line. */
  lemma ClosedFenceFits(source: Source, start: nat, contentStart: nat)
    requires OpensWithTicks(source, start, contentStart) && contentStart + 3 < |source|
    requires source[contentStart..contentStart + 3] == TICKS && source[contentStart + 3] == LF
    ensures var bytes := Range(start, contentStart + 3);
            var block := FenceBlock(bytes, source);
            block.source.bytes == bytes && NodesWithin(block, source) && FreshFence(block, source)
  {
    hide NodesFromLine, NodesBeforeEnd, ContentRange, FencedBody, OpensWithTicks;
    var bytes := Range(start, contentStart + 3);
    EmptyContent(source, start, contentStart);
    FenceNodes(FenceBlock(bytes, source), bytes, source);
  }

  /** The content of such a fence ends before its closing line. */
  lemma EmptyContent(source: Source, start: nat, contentStart: nat)
    requires OpensWithTicks(source, start, contentStart) && contentStart + 3 <= |source|
    requires source[contentStart..contentStart + 3] == TICKS
    ensures start < contentStart && ContentRange(Range(start, contentStart + 3), source).end < contentStart + 3
  {
    hide LastPiece, ScanLine, ClosesLine, FenceMarker, FirstLF;
    OpeningLineOfTicks(source, start, contentStart);
    var block := source[start..contentStart + 3];
    assert block[..contentStart - 1 - start] == source[start..contentStart - 1];
    FirstLFAt(block, contentStart - 1 - start);
    ContentRangeOfOpened(start, contentStart, contentStart + 3, source, BACKTICK, 3);
    assert forall i :: 0 <= i < 3 ==> source[contentStart..contentStart + 3][i] == TICKS[i];
    LastLineIs(source, contentStart, contentStart + 3, contentStart);
    TicksCloseLine();
  }

  lemma TicksCloseLine()
    ensures ClosesLine(TICKS, BACKTICK, 3)
  {
    assert TICKS[0..] == TICKS;
    LeadingRunIs(TICKS, SPACE, 0);
    LeadingRunIs(TICKS, BACKTICK, 3);
    LeadingRunIs(TICKS[3..], SPACE, 0);
  }

  // ---- an open fence of three backticks ---------------------------------------

  lemma OpenedWithTicks(fence: OpenFence, source: Source, contentStart: nat)
    requires Opened(fence, source) && OpensWithTicks(source, fence.start, contentStart)
    ensures fence.contentStart == contentStart && fence.marker == BACKTICK && fence.count == 3
  {
    hide FenceMarker;
    SliceWithout(source, fence.start, contentStart - 1, LF);
    SliceWithout(source, fence.start, fence.contentStart - 1, LF);
    OpeningLineOfTicks(source, fence.start, contentStart);
  }

  lemma TicksScan()
    ensures ScanLine(TICKS, BACKTICK, 3) == Marker(3)
  {
    ScanRun(0, 3, BACKTICK, 3);
    assert TICKS == Repeat(BACKTICK, 3);
  }

  lemma LastLineIs(source: Source, from: nat, end: nat, line: nat)
    requires from <= line <= end <= |source| && LF !in source[line..end] && (line == from || source[line - 1] == LF)
    ensures LastPiece(source[from..end]) == source[line..end]
  {
    hide SplitLF;
    var s, k := source[from..end], line - from;
    SplitLast(s);
    assert s[k..] == source[line..end];
    LastPieceIs(s, k);
  }

  /** Three backticks alone on a line close the fence at that line's end. */
  lemma TicksClose(fence: OpenFence, source: Source, from: nat, line: nat)
    requires fence.contentStart <= line <= from <= line + 3 < |source| && fence.marker == BACKTICK && fence.count == 3
    requires source[line..line + 3] == TICKS && (line == fence.contentStart || source[line - 1] == LF)
    requires source[line + 3] == LF || source[line + 3] == CR
    ensures FirstClosingEnd(fence, source, from) == Some(line + 3)
  {
    hide LastPiece, ScanLine;
    forall p | line <= p < line + 3
      ensures source[p] == BACKTICK
    {
      assert source[p] == source[line..line + 3][p - line];
    }
    LastLineIs(source, fence.contentStart, line + 3, line);
    TicksScan();
    FirstClosingIs(fence, source, from, line + 3);
  }

  lemma SameFence(a: Block, b: Block)
    requires SameBlock(a, b) && a.kind.Code?
    ensures b.kind.Code? && b.source == a.source && b.kind.code.info == a.kind.code.info
  {
  }

  lemma SameText(a: Block, b: Block)
    requires SameBlock(a, b) && a.kind.Paragraph?
    ensures b.kind == a.kind && b.source == a.source
  {
  }

  lemma SameRange(a: Block, b: Block)
    requires SameBlock(a, b)
    ensures a.source == b.source
  {
  }

  // ---- a document that is appended to --------------------------------------------

  /** The first chunk of an empty document is parsed once, from the start. */
  lemma FirstChunk(document: IncrementalDocument, chunk: Source)
    requires document.Valid() && document.fence == None && document.settled == UNSETTLED
    ensures document.Basis(chunk) == Some(UNSETTLED) && !document.ParsesTwice(chunk) && document.FirstChange(chunk) == 0
  {
    hide IncrementalDocument.Valid;
  }

  /** With no fence open, what is settled is what the tail is parsed behind. */
  lemma NoFence(document: IncrementalDocument, chunk: Source)
    requires document.Valid() && document.fence == None
    ensures document.Basis(chunk) == Some(document.settled)
    ensures document.ParsesTwice(chunk) <==>
            GivesUp(document.parse, document.source + chunk, document.settled, document.definitions)
    ensures document.FirstChange(chunk)
            == KeptBlocks(document.parse, document.source + chunk, document.settled, document.definitions)
  {
    hide IncrementalDocument.Valid;
  }

  /** An open fence is the last block, and its registers are those of a scan. */
  lemma FenceIsLast(document: IncrementalDocument)
    requires document.Valid() && document.fence.Some?
    ensures var fence := document.fence.value;
            && |document.blocks| > 0 && fence.block == |document.blocks| - 1
            && document.blocks[fence.block].source.bytes == Range(fence.start, |document.source|)
            && fence.contentStart <= |document.source| && Opened(fence, document.source)
  {
    hide ParserContract, LineIndex.Indexes, SettledNumbered, SettledLayout, InLines, NumberedByLine, Resumable,
         TailLayout, BracketsMatch, InBounds, DefinitionsMatch, TrackedBody, ClipsValid, Opened, ClosedByCR, Split,
         CurrentLine;
  }

  lemma KnownNow(document: IncrementalDocument)
    requires document.Valid()
    ensures Known(document.settled, document.blocks, document.source)
            && SpansWithin(document.tailDefinitions, |document.source|)
  {
    hide ParserContract, LineIndex.Indexes, SettledNumbered, SettledLayout, InLines, NumberedByLine, Resumable,
         TailLayout, OpenBlockValid;
    document.KnownOfSettled();
  }

  lemma BracketsNow(document: IncrementalDocument)
    requires document.Valid()
    ensures document.settled.blocks <= |document.blocks|
    ensures BracketsMatch(document.settled.brackets, document.blocks[..document.settled.blocks], document.source)
  {
    hide BracketsMatch, IncrementalDocument.SettledValid;
    document.SettledMeans();
  }
}
