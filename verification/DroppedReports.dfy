/**
 A run in which the report is wrong: a paragraph `[foo]` and an open fence, then the end of the fence
 and the definition of `foo`. The paragraph becomes a link, yet only the fence is reported.
 */
module DroppedReports {
  import opened Bytes
  import opened LineIndexing
  import opened FenceLines
  import opened CodeBlocks
  import opened OpenFences
  import opened FenceExtension
  import opened FenceRuns
  import opened Targets
  import opened Settling
  import opened TailParses
  import opened Incremental
  import opened SampleParses

  /** `[foo]`, a blank line and an opening line. */
  const FIRST: Source := [BRACKET, 102, 111, 111, 93, LF, LF, BACKTICK, BACKTICK, BACKTICK, LF]
  /** A closing line and `[foo]: /u`. */
  const SECOND: Source := [BACKTICK, BACKTICK, BACKTICK, LF, BRACKET, 102, 111, 111, 93, 58, 32, 47, 117, LF]
  const WHOLE: Source := FIRST + SECOND
  const NAME: Source := [102, 111, 111]
  const LINK: map<Source, Definition> := map[NAME := Definition([47, 117], None)]

  const OPEN: Parsed := Parsed([TextBlock(Range(0, 6), [BRACKET] + NAME + [93], FIRST),
                                FenceBlock(Range(7, 11), FIRST)], map[], [])
  const DEFINED: Parsed := Parsed([], LINK, [Range(15, 24)])
  const LINKED: Parsed := Parsed([TextBlock(Range(0, 6), NAME, WHOLE), FenceBlock(Range(7, 14), WHOLE)], LINK,
                                 [Range(15, 24)])

  /** The parser on the three tails the run parses. */
  function Parse(source: Source, start: nat, prefix: Source): Parsed {
    if source == FIRST && start == 0 then OPEN
    else if source == WHOLE && start == 15 then DEFINED
    else if source == WHOLE && start == 0 then LINKED
    else NOTHING_PARSED
  }

  lemma OpenIsWellParsed()
    ensures WellParsed(OPEN, FIRST, 0)
  {
    hide NodesWithin, FreshFence, TailLayout, FenceBlock, TextBlock, OpensWithTicks;
    Opens(FIRST);
    TextFits(Range(0, 6), [BRACKET] + NAME + [93], FIRST);
    OpenFenceFits(FIRST, 7, 11);
    TwoBlocks(OPEN.blocks[0], OPEN.blocks[1], FIRST, 0);
  }

  lemma Opens(source: Source)
    requires |source| >= 11 && source[..11] == FIRST
    ensures OpensWithTicks(source, 7, 11)
  {
    assert forall i :: 0 <= i < 11 ==> source[i] == source[..11][i];
    assert source[7..10] == TICKS;
  }

  lemma LinkedIsWellParsed()
    ensures WellParsed(LINKED, WHOLE, 0)
  {
    hide NodesWithin, FreshFence, TailLayout, FenceBlock, TextBlock, OpensWithTicks;
    TextFits(Range(0, 6), NAME, WHOLE);
    ClosingLine();
    Opens(WHOLE);
    ClosedFenceFits(WHOLE, 7, 11);
    TwoBlocks(LINKED.blocks[0], LINKED.blocks[1], WHOLE, 0);
  }

  lemma ClosingLine()
    ensures |WHOLE| == 25 && WHOLE[..11] == FIRST && WHOLE[11..14] == TICKS && WHOLE[14] == LF && WHOLE[15] == BRACKET
  {
    assert WHOLE[..|FIRST|] == FIRST;
    assert SECOND[..3] == TICKS;
    assert WHOLE[|FIRST|..] == SECOND;
    assert WHOLE[11..14] == SECOND[..3];
  }

  lemma FenceAt()
    ensures OPEN.blocks[1].source.bytes == Range(7, 11)
  {
    hide ContentRange, FencedBody;
  }

  lemma ParseMeetsContract()
    ensures ParserContract(Parse)
  {
    hide WellParsed, BlankLine, FenceBlock, TextBlock;
    forall source, start: nat, spans | Resumable(source, start) && SpansWithin(spans, start)
      ensures WellParsed(Parse(source, start, PrefixOf(spans, source)), source, start)
    {
      OpenIsWellParsed();
      LinkedIsWellParsed();
      DefinedIsWellParsed();
      NothingIsWellParsed(source, start);
    }
  }

  lemma DefinedIsWellParsed()
    ensures WellParsed(DEFINED, WHOLE, 15)
  {
  }

  // ---- after the first chunk ---------------------------------------------------

  lemma AfterFirst(blocks: seq<Block>, settled: Settled, definitions: map<Source, Definition>)
    requires Known(UNSETTLED, [], FIRST)
    requires TailParsed(Parse, FIRST, [], UNSETTLED, map[], 0, blocks, definitions)
    requires SettledFrom(blocks, FIRST, settled, KeptBlocks(Parse, FIRST, UNSETTLED, map[]),
                         ParsedFrom(Parse, FIRST, [], UNSETTLED, map[]))
    ensures |blocks| == 2 && SameBlock(OPEN.blocks[0], blocks[0]) && SameBlock(OPEN.blocks[1], blocks[1])
            && definitions == map[]
    ensures settled.blocks < 2 && OpensFence(blocks[1], FIRST)
  {
    hide SameBlock, ContentRange, FencedBody, Separates;
    var last := LastParse(Parse, FIRST, [], UNSETTLED, map[]);
    assert last == OPEN;
    assert SameBlock(OPEN.blocks[0], blocks[0 + 0]) && SameBlock(OPEN.blocks[1], blocks[0 + 1]);
    SameFence(OPEN.blocks[1], blocks[1]);
    assert FIRST[10] == LF;
  }

  /** The second chunk closes the fence and gives up on the paragraph. */
  lemma SecondGivesUp(blocks: seq<Block>, settled: Settled, fence: OpenFence, spans: seq<Range>)
    requires |blocks| == 2 && SameBlock(OPEN.blocks[0], blocks[0]) && fence.block == 1 && Opened(fence, FIRST)
             && fence.start == 7
    requires Known(settled, blocks, WHOLE) && SpansWithin(spans, |WHOLE|)
    ensures fence.contentStart == 11 && ResumesAt(fence, WHOLE, 11) == Some(15)
    ensures var basis := ClosedSettled(settled, blocks, WHOLE, spans, 1, 15);
            && GivesUp(Parse, WHOLE, basis, map[]) && FirstTrue(basis.brackets) == 0
            && (Known(basis, blocks, WHOLE) ==> LastParse(Parse, WHOLE, blocks, basis, map[]) == LINKED)
  {
    hide SameBlock, ContentRange, FencedBody, LastPiece, ScanLine, FirstClosingEnd, Opened, PrefixOf, SpansUpTo;
    Opens(FIRST);
    OpenedWithTicks(fence, FIRST, 11);
    assert WHOLE[11..14] == TICKS;
    ClosingLine();
    TicksClose(fence, WHOLE, 11, 11);
    SameText(OPEN.blocks[0], blocks[0]);
    var basis := ClosedSettled(settled, blocks, WHOLE, spans, 1, 15);
    assert WHOLE[0..6][0] == BRACKET;
    assert HasBracket(blocks[0], WHOLE);
    assert basis.brackets[0];
    assert NAME in LINK;
    assert BackTo(WHOLE, blocks, 0) == 0;
  }

  /** The state the second chunk meets. */
  lemma BeforeSecond(document: IncrementalDocument)
    requires document.Valid() && document.parse == Parse && document.source == FIRST && document.definitions == map[]
    requires |document.blocks| == 2 && SameBlock(OPEN.blocks[0], document.blocks[0])
             && SameBlock(OPEN.blocks[1], document.blocks[1])
    requires document.fence.Some?
    ensures document.fence.value.block == 1 && document.ParsesTwice(SECOND) && document.FirstChange(SECOND) == 0
    ensures document.Basis(SECOND).Some? && Known(document.Basis(SECOND).value, document.blocks, WHOLE)
    ensures LastParse(Parse, WHOLE, document.blocks, document.Basis(SECOND).value, map[]) == LINKED
    ensures KeptBlocks(Parse, WHOLE, document.Basis(SECOND).value, map[]) == 0
  {
    hide IncrementalDocument.Valid, Known, ResumesAt, ClosedSettled, GivesUp, LastParse, FirstTrue, SameBlock, Opened,
         FenceBlock, TextBlock;
    FenceIsLast(document);
    FenceAt();
    SameRange(OPEN.blocks[1], document.blocks[1]);
    KnownNow(document);
    KnownGrows(document.settled, document.blocks, FIRST, SECOND, document.tailDefinitions);
    SecondGivesUp(document.blocks, document.settled, document.fence.value, document.tailDefinitions);
  }

  lemma Relinked(before: seq<Block>, after: seq<Block>, line: nat)
    requires |before| == 2 && SameBlock(OPEN.blocks[0], before[0]) && TailIs(after, 0, LINKED.blocks)
    ensures before[0].kind == Paragraph([BRACKET] + NAME + [93]) && |after| == 2 && after[0].kind == Paragraph(NAME)
    ensures !SamePrefix(before, after, 1, line)
  {
    hide SameBlock, SameLines, ContentRange, FencedBody;
    SameText(OPEN.blocks[0], before[0]);
    assert SameBlock(LINKED.blocks[0], after[0 + 0]);
    SameText(LINKED.blocks[0], after[0]);
    assert before[..1][0] == before[0] && after[..1][0] == after[0];
    assert |[BRACKET] + NAME + [93]| != |NAME|;
  }

  lemma TailOf(before: seq<Block>, basis: Settled, blocks: seq<Block>, definitions: map<Source, Definition>)
    requires Known(basis, before, WHOLE) && TailParsed(Parse, WHOLE, before, basis, map[], 0, blocks, definitions)
    requires KeptBlocks(Parse, WHOLE, basis, map[]) == 0 && LastParse(Parse, WHOLE, before, basis, map[]) == LINKED
    ensures TailIs(blocks, 0, LINKED.blocks)
  {
  }

  /** Two chunks, and a report that says block 0 is as it was. */
  method Run() returns (document: IncrementalDocument, ghost before: seq<Block>, first: nat, line: nat)
    ensures fresh(document) && document.Valid() && document.parse == Parse && document.source == WHOLE
    ensures first == 1 && |before| == 2 && |document.blocks| == 2
    ensures before[0].kind == Paragraph([BRACKET] + NAME + [93]) && document.blocks[0].kind == Paragraph(NAME)
    ensures !SamePrefix(before, document.blocks, first, line)
  {
    hide IncrementalDocument.Valid, ParserContract, TailParsed, SettledFrom, KeptBlocks, ParsedFrom, LastParse,
         GivesUp, Known, OpensFence, ResumesAt, ClosedSettled, OnOwnLine, ExtendedBlock, SamePrefix, FenceBlock,
         TextBlock, SameBlock, FirstTrue;
    ParseMeetsContract();
    document := new IncrementalDocument(Parse);
    ghost var honest, resumed;
    FirstChunk(document, FIRST);
    first, line, honest, resumed := document.Append(FIRST);
    assert [] + FIRST == FIRST;
    AfterFirst(document.blocks, document.settled, document.definitions);
    before := document.blocks;
    BeforeSecond(document);
    ghost var basis := document.Basis(SECOND).value;
    first, line, honest, resumed := document.Append(SECOND);
    TailOf(before, basis, document.blocks, document.definitions);
    Relinked(before, document.blocks, line);
  }
}
