/**
 A run in which two blocks get the same id. A carriage return ends a heading and the paragraph behind it,
 so both start on one line as lines are counted. When the definition of `x` arrives, the paragraph is given
 up on from that line's start: the heading stays and is parsed again, and both are numbered 0.
 */
module SharedIds {
  import opened Bytes
  import opened LineIndexing
  import opened FenceLines
  import opened CodeBlocks
  import opened OpenFences
  import opened FenceExtension
  import opened FenceRuns
  import opened Targets
  import opened Settling
  import opened TailParses
  import opened Incremental
  import opened SampleParses

  /** `# a`, `[x] b` and an opening line, the first two ended by a carriage return. */
  const FIRST: Source := [35, SPACE, 97, CR, BRACKET, 120, 93, SPACE, 98, CR, BACKTICK, BACKTICK, BACKTICK, LF]
  /** A closing line and `[x]: /u`. */
  const SECOND: Source := [BACKTICK, BACKTICK, BACKTICK, LF, BRACKET, 120, 93, 58, SPACE, 47, 117, LF]
  const WHOLE: Source := FIRST + SECOND
  const LINK: map<Source, Definition> := map[[120] := Definition([47, 117], None)]

  const OPEN: Parsed := Parsed([HeadingBlock(Range(0, 4), 1, [97], FIRST),
                                TextBlock(Range(4, 10), [BRACKET, 120, 93, SPACE, 98], FIRST),
                                FenceBlock(Range(10, 14), FIRST)], map[], [])
  const DEFINED: Parsed := Parsed([], LINK, [Range(18, 25)])
  const LINKED: Parsed := Parsed([HeadingBlock(Range(0, 4), 1, [97], WHOLE),
                                  TextBlock(Range(4, 10), [120, SPACE, 98], WHOLE),
                                  FenceBlock(Range(10, 17), WHOLE)], LINK, [Range(18, 25)])

  /** The parser on the three tails the run parses. */
  function Parse(source: Source, start: nat, prefix: Source): Parsed {
    if source == FIRST && start == 0 then OPEN
    else if source == WHOLE && start == 18 then DEFINED
    else if source == WHOLE && start == 0 then LINKED
    else NOTHING_PARSED
  }

  lemma Opening()
    ensures |FIRST| == 14 && |WHOLE| == 26 && OpensWithTicks(FIRST, 10, 14) && OpensWithTicks(WHOLE, 10, 14)
    ensures WHOLE[14..17] == TICKS && WHOLE[17] == LF && FIRST[14..] == []
  {
    assert FIRST[10..13] == TICKS && WHOLE[10..13] == TICKS;
  }

  lemma OpenIsWellParsed()
    ensures WellParsed(OPEN, FIRST, 0)
  {
    hide NodesWithin, FreshFence, TailLayout, FenceBlock, TextBlock, HeadingBlock, OpensWithTicks;
    Opening();
    HeadingFits(Range(0, 4), 1, [97], FIRST);
    TextFits(Range(4, 10), [BRACKET, 120, 93, SPACE, 98], FIRST);
    OpenFenceFits(FIRST, 10, 14);
    ThreeBlocks(OPEN.blocks[0], OPEN.blocks[1], OPEN.blocks[2], FIRST, 0);
  }

  lemma LinkedIsWellParsed()
    ensures WellParsed(LINKED, WHOLE, 0)
  {
    hide NodesWithin, FreshFence, TailLayout, FenceBlock, TextBlock, HeadingBlock, OpensWithTicks;
    Opening();
    HeadingFits(Range(0, 4), 1, [97], WHOLE);
    TextFits(Range(4, 10), [120, SPACE, 98], WHOLE);
    ClosedFenceFits(WHOLE, 10, 14);
    ThreeBlocks(LINKED.blocks[0], LINKED.blocks[1], LINKED.blocks[2], WHOLE, 0);
  }

  lemma DefinedIsWellParsed()
    ensures WellParsed(DEFINED, WHOLE, 18)
  {
  }

  lemma ParseMeetsContract()
    ensures ParserContract(Parse)
  {
    hide WellParsed, BlankLine, FenceBlock, TextBlock, HeadingBlock;
    forall source, start: nat, spans | Resumable(source, start) && SpansWithin(spans, start)
      ensures WellParsed(Parse(source, start, PrefixOf(spans, source)), source, start)
    {
      OpenIsWellParsed();
      LinkedIsWellParsed();
      DefinedIsWellParsed();
      NothingIsWellParsed(source, start);
    }
  }

  // ---- the two steps -------------------------------------------------------------

  /** What the blocks of the first chunk are, whatever their ids. */
  ghost predicate AsOpened(blocks: seq<Block>) {
    && |blocks| == 3 && blocks[0].kind == Heading(1, [97]) && blocks[0].source.bytes == Range(0, 4)
    && blocks[1].kind.Paragraph? && blocks[1].source.bytes == Range(4, 10) && blocks[2].kind.Code?
    && blocks[2].source.bytes == Range(10, 14)
  }

  lemma SameHeading(a: Block, b: Block)
    requires SameBlock(a, b) && a.kind.Heading?
    ensures b.kind == a.kind && b.source == a.source
  {
  }

  lemma Places()
    ensures OPEN.blocks[2].source.bytes == Range(10, 14) && OPEN.blocks[2].kind.Code?
    ensures OPEN.blocks[2].kind.code.info.Some?
  {
    hide ContentRange, FencedBody;
  }

  lemma AfterFirst(blocks: seq<Block>, settled: Settled, definitions: map<Source, Definition>)
    requires Known(UNSETTLED, [], FIRST)
    requires TailParsed(Parse, FIRST, [], UNSETTLED, map[], 0, blocks, definitions)
    requires SettledFrom(blocks, FIRST, settled, KeptBlocks(Parse, FIRST, UNSETTLED, map[]),
                         ParsedFrom(Parse, FIRST, [], UNSETTLED, map[]))
    ensures AsOpened(blocks) && definitions == map[]
    ensures settled.blocks < 3 && OpensFence(blocks[2], FIRST)
  {
    hide SameBlock, ContentRange, FencedBody, FenceBlock, LastPiece;
    assert LastParse(Parse, FIRST, [], UNSETTLED, map[]) == OPEN;
    assert SameBlock(OPEN.blocks[0], blocks[0 + 0]) && SameBlock(OPEN.blocks[1], blocks[0 + 1])
           && SameBlock(OPEN.blocks[2], blocks[0 + 2]);
    Places();
    SameHeading(OPEN.blocks[0], blocks[0]);
    SameText(OPEN.blocks[1], blocks[1]);
    SameFence(OPEN.blocks[2], blocks[2]);
    assert FIRST[13] == LF;
    LastLineIs(FIRST, 0, 4, 0);
    assert FIRST[0..4] == FIRST[..4];
    assert !Separates(blocks, FIRST, 0);
  }

  /** The definition makes the document give up on the paragraph, and go back to the heading's start. */
  lemma SecondGoesBack(blocks: seq<Block>, settled: Settled, spans: seq<Range>)
    requires AsOpened(blocks) && Known(settled, blocks, WHOLE) && SpansWithin(spans, |WHOLE|)
    ensures var basis := ClosedSettled(settled, blocks, WHOLE, spans, 2, 18);
            && GivesUp(Parse, WHOLE, basis, map[]) && KeptBlocks(Parse, WHOLE, basis, map[]) == 1
            && FirstTrue(basis.brackets) == 1
            && (Known(basis, blocks, WHOLE) ==> LastParse(Parse, WHOLE, blocks, basis, map[]) == LINKED)
    ensures !StaysBefore(WHOLE, blocks, 1)
  {
    hide LastPiece, PrefixOf, SpansUpTo, FenceBlock, TextBlock, HeadingBlock;
    Opening();
    var basis := ClosedSettled(settled, blocks, WHOLE, spans, 2, 18);
    assert [120] in LINK;
    assert WHOLE[4..10][0] == BRACKET && WHOLE[0..4] == [35, SPACE, 97, CR];
    assert HasBracket(blocks[1], WHOLE) && !HasBracket(blocks[0], WHOLE);
    assert !basis.brackets[0] && basis.brackets[1];
    LastLineIs(WHOLE, 0, 4, 0);
    assert WHOLE[0..4] == WHOLE[..4];
    assert BackTo(WHOLE, blocks, 1) == 0;
    HeadingNode(blocks);
  }

  lemma HeadingNode(blocks: seq<Block>)
    requires AsOpened(blocks)
    ensures Nodes(blocks[..1]) == [Node(blocks[0].target, HeadingTarget, blocks[0].source)]
    ensures Nodes(blocks[..1])[0] in Nodes(blocks[..1])
  {
    assert blocks[..1] == [] + [blocks[0]];
    NodesPush([], blocks[0]);
  }

  /** The state the second chunk meets. */
  lemma BeforeSecond(document: IncrementalDocument)
    requires document.Valid() && document.parse == Parse && document.source == FIRST && document.definitions == map[]
    requires AsOpened(document.blocks) && document.fence.Some?
    ensures document.ParsesTwice(SECOND) && document.FirstChange(SECOND) == 1
    ensures document.Basis(SECOND).Some? && Known(document.Basis(SECOND).value, document.blocks, WHOLE)
    ensures KeptBlocks(Parse, WHOLE, document.Basis(SECOND).value, map[]) == 1
    ensures LastParse(Parse, WHOLE, document.blocks, document.Basis(SECOND).value, map[]) == LINKED
    ensures !StaysBefore(WHOLE, document.blocks, 1)
  {
    hide IncrementalDocument.Valid, Known, ClosedSettled, GivesUp, LastParse, FirstTrue, Opened, FenceBlock, TextBlock,
         HeadingBlock, KeptBlocks, StaysBefore, LastPiece, ScanLine, FirstClosingEnd, OpensWithTicks;
    FenceIsLast(document);
    Opening();
    OpenedWithTicks(document.fence.value, FIRST, 14);
    TicksClose(document.fence.value, WHOLE, 14, 14);
    KnownNow(document);
    KnownGrows(document.settled, document.blocks, FIRST, SECOND, document.tailDefinitions);
    SecondGoesBack(document.blocks, document.settled, document.tailDefinitions);
  }

  lemma AfterSecond(before: seq<Block>, basis: Settled, blocks: seq<Block>, definitions: map<Source, Definition>)
    requires AsOpened(before)
    requires Known(basis, before, WHOLE) && TailParsed(Parse, WHOLE, before, basis, map[], 1, blocks, definitions)
    requires KeptBlocks(Parse, WHOLE, basis, map[]) == 1 && LastParse(Parse, WHOLE, before, basis, map[]) == LINKED
    ensures |blocks| == 4 && blocks[0] == before[0] && Nodes(blocks[1..]) != []
    ensures blocks[1].kind == Heading(1, [97]) && blocks[1].source.bytes == Range(0, 4)
    ensures blocks[2].kind == Paragraph([120, SPACE, 98])
  {
    hide SameBlock, KeptBlocks, LastParse, FenceBlock;
    assert SameBlock(LINKED.blocks[0], blocks[1 + 0]) && SameBlock(LINKED.blocks[1], blocks[1 + 1]);
    SameHeading(LINKED.blocks[0], blocks[1]);
    SameText(LINKED.blocks[1], blocks[2]);
    assert blocks[0] == blocks[..1][0] == before[..1][0] == before[0];
    assert blocks[1..] == [blocks[1]] + blocks[2..];
    NodesConcat([blocks[1]], blocks[2..]);
    assert [blocks[1]] == [] + [blocks[1]];
    NodesPush([], blocks[1]);
  }

  lemma NoTargetsMatch(blocks: seq<Block>)
    requires SharesId(blocks)
    ensures forall targets :: !TargetsMatch(blocks, targets)
  {
    hide Nodes, TargetsMatch;
    forall targets | TargetsMatch(blocks, targets)
      ensures false
    {
      TargetsArePositions(blocks, targets);
    }
  }

  /** Two chunks, after which the heading is there twice, two nodes have the same id, and no list of targets belongs
      to the blocks. */
  method Run() returns (document: IncrementalDocument)
    ensures fresh(document) && document.Valid() && document.parse == Parse && document.source == WHOLE
    ensures |document.blocks| == 4 && document.blocks[0].kind == document.blocks[1].kind == Heading(1, [97])
    ensures document.blocks[0].source.bytes == document.blocks[1].source.bytes == Range(0, 4)
    ensures SharesId(document.blocks) && forall targets :: !TargetsMatch(document.blocks, targets)
  {
    hide IncrementalDocument.Valid, ParserContract, TailParsed, SettledFrom, KeptBlocks, ParsedFrom, LastParse,
         GivesUp, Known, OpensFence, ResumesAt, ClosedSettled, OnOwnLine, StaysBefore, ExtendedBlock, SamePrefix,
         FenceBlock, TextBlock, HeadingBlock, SameBlock, FirstTrue, SharesId, TargetsMatch, Numbering, Nodes;
    ParseMeetsContract();
    document := new IncrementalDocument(Parse);
    var first, line;
    ghost var honest, resumed;
    FirstChunk(document, FIRST);
    first, line, honest, resumed := document.Append(FIRST);
    assert [] + FIRST == FIRST;
    AfterFirst(document.blocks, document.settled, document.definitions);
    BeforeSecond(document);
    ghost var before, basis := document.blocks, document.Basis(SECOND).value;
    first, line, honest, resumed := document.Append(SECOND);
    AfterSecond(before, basis, document.blocks, document.definitions);
    NoTargetsMatch(document.blocks);
  }
}
