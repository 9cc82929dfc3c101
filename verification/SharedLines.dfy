/**
 A run in which going back reaches into a block that stays. A carriage return ends a fence's closing
 line, so `[foo]` starts a block behind it, yet both are on one line as lines are counted. When the
 definition of `foo` arrives, the paragraph is given up on from that line's start: the closing line
 is parsed again, as an opening line.
 */
module SharedLines {
  import opened Bytes
  import opened LineIndexing
  import opened FenceLines
  import opened CodeBlocks
  import opened OpenFences
  import opened FenceExtension
  import opened FenceRuns
  import opened FenceTargets
  import opened Targets
  import opened Settling
  import opened TailParses
  import opened Incremental
  import opened SampleParses

  /** An opening line and `x`. */
  const FIRST: Source := [BACKTICK, BACKTICK, BACKTICK, LF, 120, LF]
  /** Three backticks, a carriage return, `[foo]` and a blank line. */
  const SECOND: Source := [BACKTICK, BACKTICK, BACKTICK, CR, BRACKET, 102, 111, 111, 93, LF, LF]
  /** `[foo]: /u`. */
  const THIRD: Source := [BRACKET, 102, 111, 111, 93, 58, 32, 47, 117, LF]
  const BOTH: Source := FIRST + SECOND
  const WHOLE: Source := BOTH + THIRD
  const NAME: Source := [102, 111, 111]
  const LINK: map<Source, Definition> := map[NAME := Definition([47, 117], None)]

  const OPEN: Parsed := Parsed([FenceBlock(Range(0, 6), FIRST)], map[], [])
  const TEXT: Parsed := Parsed([TextBlock(Range(10, 16), [BRACKET] + NAME + [93], BOTH)], map[], [])
  const DEFINED: Parsed := Parsed([], LINK, [Range(17, 26)])
  const REOPENED: Parsed := Parsed([FenceBlock(Range(6, 27), WHOLE)], map[], [])

  /** The parser on the four tails the run parses. */
  function Parse(source: Source, start: nat, prefix: Source): Parsed {
    if source == FIRST && start == 0 then OPEN
    else if source == BOTH && start == 10 then TEXT
    else if source == WHOLE && start == 16 then DEFINED
    else if source == WHOLE && start == 6 then REOPENED
    else NOTHING_PARSED
  }

  lemma Opening()
    ensures |FIRST| == 6 && |BOTH| == 17 && |WHOLE| == 27
    ensures OpensWithTicks(FIRST, 0, 4) && OpensWithTicks(WHOLE, 6, 16)
    ensures CR !in FIRST[4..] && CR !in WHOLE[16..]
  {
    assert FIRST[0..3] == TICKS && WHOLE[6..9] == TICKS;
  }

  lemma ParseMeetsContract()
    ensures ParserContract(Parse)
  {
    hide WellParsed, BlankLine, FenceBlock, TextBlock;
    forall source, start: nat, spans | Resumable(source, start) && SpansWithin(spans, start)
      ensures WellParsed(Parse(source, start, PrefixOf(spans, source)), source, start)
    {
      OpenIsWellParsed();
      TextIsWellParsed();
      DefinedIsWellParsed();
      ReopenedIsWellParsed();
      NothingIsWellParsed(source, start);
    }
  }

  lemma OpenIsWellParsed()
    ensures WellParsed(OPEN, FIRST, 0)
  {
    hide NodesWithin, FreshFence, TailLayout, FenceBlock, OpensWithTicks;
    Opening();
    OpenFenceFits(FIRST, 0, 4);
    OneBlock(OPEN.blocks[0], FIRST, 0);
  }

  lemma TextIsWellParsed()
    ensures WellParsed(TEXT, BOTH, 10)
  {
    hide NodesWithin, FreshFence, TailLayout, TextBlock;
    TextFits(Range(10, 16), [BRACKET] + NAME + [93], BOTH);
    OneBlock(TEXT.blocks[0], BOTH, 10);
  }

  lemma DefinedIsWellParsed()
    ensures WellParsed(DEFINED, WHOLE, 16)
  {
  }

  lemma ReopenedIsWellParsed()
    ensures WellParsed(REOPENED, WHOLE, 6)
  {
    hide NodesWithin, FreshFence, TailLayout, FenceBlock, OpensWithTicks;
    Opening();
    OpenFenceFits(WHOLE, 6, 16);
    OneBlock(REOPENED.blocks[0], WHOLE, 6);
  }

  // ---- the three steps -----------------------------------------------------------

  lemma Places()
    ensures OPEN.blocks[0].source.bytes == Range(0, 6) && REOPENED.blocks[0].source.bytes == Range(6, 27)
    ensures TEXT.blocks[0].source.bytes == Range(10, 16)
  {
    hide ContentRange, FencedBody;
  }

  lemma AfterFirst(blocks: seq<Block>, settled: Settled, definitions: map<Source, Definition>)
    requires Known(UNSETTLED, [], FIRST)
    requires TailParsed(Parse, FIRST, [], UNSETTLED, map[], 0, blocks, definitions)
    requires SettledFrom(blocks, FIRST, settled, KeptBlocks(Parse, FIRST, UNSETTLED, map[]),
                         ParsedFrom(Parse, FIRST, [], UNSETTLED, map[]))
    ensures |blocks| == 1 && blocks[0].kind.Code? && blocks[0].source.bytes == Range(0, 6) && definitions == map[]
    ensures settled.blocks == 0 && OpensFence(blocks[0], FIRST)
  {
    hide SameBlock, ContentRange, FencedBody, Separates, FenceBlock;
    assert LastParse(Parse, FIRST, [], UNSETTLED, map[]) == OPEN;
    assert SameBlock(OPEN.blocks[0], blocks[0 + 0]);
    Places();
    IsFenced(Range(0, 6), FIRST);
    SameFence(OPEN.blocks[0], blocks[0]);
    assert FIRST[3] == LF;
  }

  lemma IsFenced(bytes: Range, source: Source)
    requires bytes.start <= bytes.end <= |source|
    ensures FenceBlock(bytes, source).kind.Code? && FenceBlock(bytes, source).kind.code.info.Some?
  {
  }

  /** The second chunk closes the fence at the carriage return and goes on with `[foo]`. */
  lemma BeforeSecond(document: IncrementalDocument)
    requires document.Valid() && document.parse == Parse && document.source == FIRST && document.definitions == map[]
    requires |document.blocks| == 1 && document.blocks[0].source.bytes == Range(0, 6) && document.fence.Some?
    ensures document.fence.value.block == 0 && document.fence.value.start == 0
    ensures document.fence.value.contentStart == 4 && ResumesAt(document.fence.value, BOTH, 6) == Some(10)
    ensures FirstClosingEnd(document.fence.value, BOTH, 6) == Some(9)
    ensures !document.ParsesTwice(SECOND) && document.FirstChange(SECOND) == 0
    ensures document.Basis(SECOND).Some? && Known(document.Basis(SECOND).value, document.blocks, BOTH)
    ensures var basis := document.Basis(SECOND).value;
            && KeptBlocks(Parse, BOTH, basis, map[]) == 1
            && ParsedFrom(Parse, BOTH, document.blocks, basis, map[]) == 10
            && LastParse(Parse, BOTH, document.blocks, basis, map[]) == TEXT
  {
    hide IncrementalDocument.Valid, Known, FirstTrue, Opened, FenceBlock, TextBlock, FlagsOf, PrefixOf, SpansUpTo,
         LastPiece, ScanLine, FirstClosingEnd, OpensWithTicks;
    FenceIsLast(document);
    Opening();
    OpenedWithTicks(document.fence.value, FIRST, 4);
    ClosingLine();
    TicksClose(document.fence.value, BOTH, 6, 6);
  }

  lemma ClosingLine()
    ensures BOTH[6..9] == TICKS && BOTH[5] == LF && BOTH[9] == CR && BOTH[10] == BRACKET
  {
  }

  lemma ClosedAt(opening: OpenFence, previous: Block, block: Block, start: nat, clips: seq<Clip>,
                 fence: Option<OpenFence>, next: seq<Clip>, resume: nat, source: Source)
    requires ExtendedBlock(opening, previous, block, source, start, clips, fence, next, Some(resume))
    ensures block.kind.Code? && FirstClosingEnd(opening, source, start) == Some(block.source.bytes.end)
    ensures block.source.bytes.start == opening.start && block.kind.code.source == block.source && block.target.Some?
    ensures block.kind.code.body == ScratchBody(opening.start, block.source.bytes.end, source, block.target.value)
  {
    hide IsClosingEnd, ContentRange, ScratchBody, FirstClosingEnd;
    FirstClosingIs(opening, source, start, block.source.bytes.end);
  }

  /** The nodes of the closed block start before the closing line. */
  lemma NodesBeforeClosing(blocks: seq<Block>, base: nat)
    requires |blocks| > 0 && blocks[0].kind.Code? && blocks[0].source.bytes == Range(0, 9)
    requires blocks[0].kind.code.source == blocks[0].source
    requires blocks[0].kind.code.body == ScratchBody(0, 9, BOTH, base)
    ensures StartBefore(Nodes(blocks[..1]), 6)
  {
    hide ContentRange, ScratchBody, LastPiece, ScanLine, ClosesLine, FenceMarker, FirstLF, NodesOf;
    assert BOTH[0..3] == TICKS && OpensWithTicks(BOTH, 0, 4);
    OpeningLineOfTicks(BOTH, 0, 4);
    assert BOTH[0..9][..3] == BOTH[0..3];
    FirstLFAt(BOTH[0..9], 3);
    ContentRangeOfOpened(0, 4, 9, BOTH, BACKTICK, 3);
    LastLineIs(BOTH, 4, 9, 6);
    ClosingLine();
    TicksCloseLine();
    ScratchLinesAscend(0, 9, BOTH, base);
    CodeBlockNodes(blocks[0]);
    assert blocks[..1] == [] + [blocks[0]];
    NodesPush([], blocks[0]);
  }

  lemma AfterSecond(before: seq<Block>, basis: Settled, blocks: seq<Block>, settled: Settled,
                    definitions: map<Source, Definition>)
    requires Known(basis, before, BOTH) && TailParsed(Parse, BOTH, before, basis, map[], 0, blocks, definitions)
    requires KeptBlocks(Parse, BOTH, basis, map[]) == 1 && LastParse(Parse, BOTH, before, basis, map[]) == TEXT
    requires SettledFrom(blocks, BOTH, settled, 1, 10)
    ensures |blocks| == 2 && blocks[1].kind.Paragraph? && blocks[1].source.bytes == Range(10, 16)
            && definitions == map[]
    ensures settled.blocks == 2 && settled.sourceEnd == 16
  {
    hide SameBlock, KeptBlocks, LastParse, Separates;
    assert SameBlock(TEXT.blocks[0], blocks[1 + 0]);
    SameText(TEXT.blocks[0], blocks[1]);
    Places();
    assert BOTH[16] == LF;
    assert BlankLine(BOTH, 16);
  }

  /** The definition makes the document give up on the paragraph, and go back to the middle of the block before it. */
  lemma ThirdGoesBack(blocks: seq<Block>, settled: Settled)
    requires |blocks| == 2 && blocks[0].kind.Code? && blocks[0].source.bytes == Range(0, 9)
    requires blocks[1].kind.Paragraph? && blocks[1].source.bytes == Range(10, 16)
    requires settled.blocks == 2 && settled.sourceEnd == 16 && BracketsMatch(settled.brackets, blocks, BOTH)
    requires Known(settled, blocks, WHOLE)
    ensures GivesUp(Parse, WHOLE, settled, map[]) && KeptBlocks(Parse, WHOLE, settled, map[]) == 1
    ensures !OnOwnLine(WHOLE, blocks, 1) && ParsedFrom(Parse, WHOLE, blocks, settled, map[]) == 6
    ensures StartBefore(Nodes(blocks[..1]), 6) ==> StaysBefore(WHOLE, blocks, 1)
    ensures LastParse(Parse, WHOLE, blocks, settled, map[]) == REOPENED
  {
    hide LastPiece, PrefixOf, SpansUpTo, FenceBlock, TextBlock, Nodes, StartBefore;
    assert NAME in LINK;
    assert BOTH[10..16][0] == BRACKET;
    assert HasBracket(blocks[1], BOTH) && !HasBracket(blocks[0], BOTH);
    assert !settled.brackets[0] && settled.brackets[1];
    LastLineIs(WHOLE, 0, 10, 6);
    assert WHOLE[0..10] == WHOLE[..10];
    assert LineStart(WHOLE, 10) == 6;
  }

  lemma AfterThird(before: seq<Block>, basis: Settled, blocks: seq<Block>, settled: Settled,
                   definitions: map<Source, Definition>)
    requires |before| == 2 && before[0].source.bytes == Range(0, 9)
    requires Known(basis, before, WHOLE) && TailParsed(Parse, WHOLE, before, basis, map[], 1, blocks, definitions)
    requires KeptBlocks(Parse, WHOLE, basis, map[]) == 1 && LastParse(Parse, WHOLE, before, basis, map[]) == REOPENED
    requires SettledFrom(blocks, WHOLE, settled, 1, 6)
    ensures |blocks| == 2 && blocks[0].source.bytes == Range(0, 9) && blocks[1].source.bytes == Range(6, 27)
    ensures settled.blocks == 1 && settled.sourceEnd == 6 && !SettledLayout(blocks[..1], WHOLE, 6)
  {
    hide SameBlock, KeptBlocks, LastParse, Separates, FenceBlock;
    assert SameBlock(REOPENED.blocks[0], blocks[1 + 0]);
    IsFenced(Range(6, 27), WHOLE);
    SameFence(REOPENED.blocks[0], blocks[1]);
    Places();
    assert blocks[0] == blocks[..1][0] == before[..1][0] == before[0];
  }

  lemma BeforeThird(document: IncrementalDocument)
    requires document.Valid() && document.parse == Parse && document.source == BOTH && document.definitions == map[]
    requires |document.blocks| == 2 && document.blocks[0].kind.Code? && document.blocks[0].source.bytes == Range(0, 9)
    requires document.blocks[1].kind.Paragraph? && document.blocks[1].source.bytes == Range(10, 16)
    requires document.settled.blocks == 2 && document.settled.sourceEnd == 16 && document.fence == None
    requires StartBefore(Nodes(document.blocks[..1]), 6)
    ensures StaysBefore(WHOLE, document.blocks, 1)
    ensures document.Basis(THIRD) == Some(document.settled) && Known(document.settled, document.blocks, WHOLE)
    ensures document.ParsesTwice(THIRD) && document.FirstChange(THIRD) == 1 && !OnOwnLine(WHOLE, document.blocks, 1)
    ensures KeptBlocks(Parse, WHOLE, document.settled, map[]) == 1
    ensures ParsedFrom(Parse, WHOLE, document.blocks, document.settled, map[]) == 6
    ensures LastParse(Parse, WHOLE, document.blocks, document.settled, map[]) == REOPENED
  {
    hide IncrementalDocument.Valid, Known, GivesUp, LastParse, ParsedFrom, KeptBlocks, OnOwnLine, StaysBefore,
         BracketsMatch, StartBefore, Nodes;
    NoFence(document, THIRD);
    KnownNow(document);
    KnownGrows(document.settled, document.blocks, BOTH, THIRD, document.tailDefinitions);
    BracketsNow(document);
    assert document.blocks[..2] == document.blocks;
    ThirdGoesBack(document.blocks, document.settled);
  }

  /** Three chunks, after which two blocks overlap and what counts as settled ends inside the block that is. No node
      that stays starts behind that, so ids are still positions of targets. */
  method Run() returns (document: IncrementalDocument)
    ensures fresh(document) && document.Valid() && document.parse == Parse && document.source == WHOLE
            && !document.intact && document.numbered
            && Numbering(document.blocks, document.targets, document.outline)
    ensures |document.blocks| == 2 && document.blocks[0].source.bytes == Range(0, 9)
            && document.blocks[1].source.bytes == Range(6, 27)
    ensures document.settled.blocks == 1 && document.settled.sourceEnd == 6
            && !SettledLayout(document.blocks[..1], WHOLE, 6)
  {
    hide IncrementalDocument.Valid, ParserContract, TailParsed, SettledFrom, KeptBlocks, ParsedFrom, LastParse,
         GivesUp, Known, OpensFence, ResumesAt, ClosedSettled, OnOwnLine, StaysBefore, ExtendedBlock, SamePrefix,
         FenceBlock, TextBlock, SameBlock, FirstTrue, SettledLayout, Numbering, SharesId, Nodes, ScratchBody,
         StartBefore;
    ParseMeetsContract();
    document := new IncrementalDocument(Parse);
    var first, line;
    ghost var honest, resumed;
    FirstChunk(document, FIRST);
    first, line, honest, resumed := document.Append(FIRST);
    assert [] + FIRST == FIRST;
    AfterFirst(document.blocks, document.settled, document.definitions);
    BeforeSecond(document);
    ghost var before, fence, clips, basis := document.blocks, document.fence.value, document.clips,
        document.Basis(SECOND).value;
    first, line, honest, resumed := document.Append(SECOND);
    ClosedAt(fence, before[0], document.blocks[0], 6, clips, document.fence, document.clips, 10, BOTH);
    AfterSecond(before, basis, document.blocks, document.settled, document.definitions);
    NodesBeforeClosing(document.blocks, document.blocks[0].target.value);
    BeforeThird(document);
    before, basis := document.blocks, document.settled;
    first, line, honest, resumed := document.Append(THIRD);
    AfterThird(before, basis, document.blocks, document.settled, document.definitions);
  }
}
