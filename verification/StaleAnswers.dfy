/**
 A run after which an answer points past the document: the second push reports block 1, and the third
 makes the document give up on block 0 and a parser find nothing in its place, which is not recorded. The
 parser meets its contract, yet finds no block where CommonMark has some: the run shows what the contract
 allows.
 */
module StaleAnswers {
  import opened Bytes
  import opened LineIndexing
  import opened CodeBlocks
  import opened Targets
  import opened Settling
  import opened TailParses
  import opened Incremental
  import opened ChangeLog
  import opened Streams
  import opened SampleParses

  /** `[a]` and a blank line. */
  const FIRST: Source := [BRACKET, 97, 93, LF, LF]
  /** `x`. */
  const SECOND: Source := [120, LF]
  /** `[a]: /u`. */
  const THIRD: Source := [BRACKET, 97, 93, 58, 32, 47, 117, LF]
  const BOTH: Source := FIRST + SECOND
  const WHOLE: Source := BOTH + THIRD
  const LINK: map<Source, Definition> := map[[97] := Definition([47, 117], None)]

  const TEXT: Parsed := Parsed([TextBlock(Range(0, 4), [BRACKET, 97, 93], FIRST)], map[], [])
  const MORE: Parsed := Parsed([TextBlock(Range(5, 7), [120], BOTH)], map[], [])
  const DEFINED: Parsed := Parsed([], LINK, [])

  /** A parser that meets the contract and, once `a` is defined, finds no block at all. */
  function Parse(source: Source, start: nat, prefix: Source): Parsed {
    if source == FIRST && start == 0 then TEXT
    else if source == BOTH && start == 4 then MORE
    else if source == WHOLE then DEFINED
    else NOTHING_PARSED
  }

  lemma ParseMeetsContract()
    ensures ParserContract(Parse)
  {
    hide WellParsed, TextBlock;
    forall source, start: nat, spans | Resumable(source, start) && SpansWithin(spans, start)
      ensures WellParsed(Parse(source, start, PrefixOf(spans, source)), source, start)
    {
      TextsAreWellParsed();
      NothingIsWellParsed(source, start);
      DefinedIsWellParsed(start);
    }
  }

  lemma TextsAreWellParsed()
    ensures WellParsed(TEXT, FIRST, 0) && WellParsed(MORE, BOTH, 4)
  {
    hide NodesWithin, FreshFence, TailLayout, TextBlock;
    TextFits(Range(0, 4), [BRACKET, 97, 93], FIRST);
    OneBlock(TEXT.blocks[0], FIRST, 0);
    TextFits(Range(5, 7), [120], BOTH);
    OneBlock(MORE.blocks[0], BOTH, 4);
  }

  lemma DefinedIsWellParsed(start: nat)
    ensures WellParsed(DEFINED, WHOLE, start)
  {
  }

  lemma Places()
    ensures |SECOND| == 2 && |THIRD| == 8
    ensures |FIRST| == 5 && FIRST[4] == LF && |BOTH| == 7 && |WHOLE| == 15 && WHOLE[0] == BRACKET
    ensures BOTH == FIRST + SECOND && WHOLE == BOTH + THIRD && [] + FIRST == FIRST
  {
  }

  // ---- the three pushes --------------------------------------------------------

  lemma AfterFirst(blocks: seq<Block>, definitions: map<Source, Definition>, settled: Settled, open: bool)
    requires Reparsed(Parse, FIRST, [], Some(UNSETTLED), map[], 0, blocks, definitions, settled, open)
    ensures |blocks| == 1 && blocks[0].kind.Paragraph? && blocks[0].source.bytes == Range(0, 4) && definitions == map[]
    ensures settled.blocks == 1 && settled.sourceEnd == 4 && !open
  {
    hide SameBlock, Separates;
    Places();
    assert LastParse(Parse, FIRST, [], UNSETTLED, map[]) == TEXT;
    assert SameBlock(TEXT.blocks[0], blocks[0 + 0]);
    SameText(TEXT.blocks[0], blocks[0]);
    assert BlankLine(FIRST, 4);
  }

  lemma SecondParsesOnce(blocks: seq<Block>, settled: Settled)
    requires settled.sourceEnd == 4 && settled.blocks == 1
    ensures !GivesUp(Parse, BOTH, settled, map[]) && KeptBlocks(Parse, BOTH, settled, map[]) == 1
    ensures Known(settled, blocks, BOTH) ==>
              LastParse(Parse, BOTH, blocks, settled, map[]) == MORE
                  && ParsedFrom(Parse, BOTH, blocks, settled, map[]) == 4
  {
    hide FirstTrue, PrefixOf, SpansUpTo;
    Places();
  }

  lemma AfterSecond(was: seq<Block>, basis: Settled, blocks: seq<Block>, definitions: map<Source, Definition>,
                    settled: Settled, open: bool)
    requires Reparsed(Parse, BOTH, was, Some(basis), map[], 1, blocks, definitions, settled, open)
    requires |was| == 1 && was[0].kind.Paragraph? && was[0].source.bytes == Range(0, 4) && basis.sourceEnd == 4
             && basis.blocks == 1
    ensures |blocks| == 2 && blocks[0] == was[0] && definitions == map[] && settled.blocks == 1
            && settled.sourceEnd == 4 && !open
  {
    hide SameBlock, LastParse, KeptBlocks, ParsedFrom, GivesUp, Separates;
    Places();
    SecondParsesOnce(was, basis);
    assert blocks[0] == blocks[..1][0] == was[..1][0];
    assert SameBlock(MORE.blocks[0], blocks[1 + 0]);
    SameText(MORE.blocks[0], blocks[1]);
    assert !BlankLine(BOTH, 7);
  }

  lemma ThirdGivesUp(blocks: seq<Block>, settled: Settled)
    requires |blocks| == 2 && blocks[0].kind.Paragraph? && blocks[0].source.bytes == Range(0, 4)
    requires settled.sourceEnd == 4 && settled.blocks == 1 && BracketsMatch(settled.brackets, blocks[..1], BOTH)
    ensures GivesUp(Parse, WHOLE, settled, map[]) && KeptBlocks(Parse, WHOLE, settled, map[]) == 0
    ensures Known(settled, blocks, WHOLE) ==> LastParse(Parse, WHOLE, blocks, settled, map[]) == DEFINED
  {
    hide PrefixOf, SpansUpTo, BackTo;
    Places();
    assert [97] in LINK;
    assert BOTH[0..4][0] == BRACKET;
    assert HasBracket(blocks[..1][0], BOTH);
    assert settled.brackets[0];
  }

  lemma AfterThird(was: seq<Block>, basis: Settled, blocks: seq<Block>, definitions: map<Source, Definition>,
                   settled: Settled, open: bool)
    requires Reparsed(Parse, WHOLE, was, Some(basis), map[], 0, blocks, definitions, settled, open)
    requires KeptBlocks(Parse, WHOLE, basis, map[]) == 0 && LastParse(Parse, WHOLE, was, basis, map[]) == DEFINED
    ensures blocks == []
  {
    hide LastParse, KeptBlocks, ParsedFrom, SettledFrom;
  }

  lemma First(stream: MarkdownStream)
    requires stream.Valid() && stream.inner.fence == None && stream.inner.settled == UNSETTLED
    ensures stream.inner.Basis(FIRST) == Some(UNSETTLED) && !stream.GivesUpOn(FIRST)
            && stream.inner.FirstChange(FIRST) == 0
  {
    hide IncrementalDocument.Valid, MarkdownStream.Logged, IncrementalDocument.Basis, IncrementalDocument.FirstChange,
         IncrementalDocument.ParsesTwice;
    FirstChunk(stream.inner, FIRST);
  }

  lemma Second(stream: MarkdownStream)
    requires stream.Valid() && stream.inner.parse == Parse && stream.inner.source == FIRST && stream.inner.fence == None
    requires stream.inner.settled.blocks == 1 && stream.inner.settled.sourceEnd == 4
             && stream.inner.definitions == map[]
    ensures stream.inner.Basis(SECOND) == Some(stream.inner.settled) && !stream.GivesUpOn(SECOND)
    ensures stream.inner.FirstChange(SECOND) == 1
  {
    hide IncrementalDocument.Valid, MarkdownStream.Logged, IncrementalDocument.Basis, IncrementalDocument.FirstChange,
         IncrementalDocument.ParsesTwice, GivesUp, KeptBlocks;
    NoFence(stream.inner, SECOND);
    SecondParsesOnce(stream.inner.blocks, stream.inner.settled);
  }

  lemma Third(stream: MarkdownStream)
    requires stream.Valid() && stream.inner.parse == Parse && stream.inner.source == BOTH && stream.inner.fence == None
    requires |stream.inner.blocks| == 2 && stream.inner.blocks[0].kind.Paragraph?
             && stream.inner.blocks[0].source.bytes == Range(0, 4)
    requires stream.inner.settled.blocks == 1 && stream.inner.settled.sourceEnd == 4
             && stream.inner.definitions == map[]
    ensures stream.inner.Basis(THIRD) == Some(stream.inner.settled) && stream.GivesUpOn(THIRD)
            && stream.inner.FirstChange(THIRD) == 0
    ensures Known(stream.inner.settled, stream.inner.blocks, WHOLE)
            && KeptBlocks(Parse, WHOLE, stream.inner.settled, map[]) == 0
    ensures LastParse(Parse, WHOLE, stream.inner.blocks, stream.inner.settled, map[]) == DEFINED
  {
    hide IncrementalDocument.Valid, MarkdownStream.Logged, IncrementalDocument.Basis, IncrementalDocument.FirstChange,
         IncrementalDocument.ParsesTwice, GivesUp, KeptBlocks, LastParse, Known, BracketsMatch;
    NoFence(stream.inner, THIRD);
    KnownNow(stream.inner);
    KnownGrows(stream.inner.settled, stream.inner.blocks, BOTH, THIRD, stream.inner.tailDefinitions);
    BracketsNow(stream.inner);
    ThirdGivesUp(stream.inner.blocks, stream.inner.settled);
  }

  lemma Answers(stream: MarkdownStream)
    requires stream.Valid() && stream.replacedAt == 0 && stream.revision == 3
    requires stream.reports == [Entry(1, Place(0, 0)), Entry(2, Place(1, 0))]
    ensures stream.ChangesSince(1) == Changes(1, 0, false)
  {
    hide IncrementalDocument.Valid;
    stream.ChangesSinceIsTrue(1);
    var reports := stream.reports;
    assert reports[..1] == [Entry(1, Place(0, 0))] && reports[..1][..0] == [];
    assert Earliest(reports[..1], 1) == None;
  }

  /** Three pushes; a renderer that has seen the first is told to keep one block of a document without blocks. */
  method Run() returns (stream: MarkdownStream)
    ensures fresh(stream) && stream.Valid() && stream.inner.parse == Parse && stream.inner.source == WHOLE
    ensures stream.honest && stream.inner.blocks == [] && stream.replacedAt == 0 && stream.revision == 3
    ensures stream.ChangesSince(1) == Changes(1, 0, false)
  {
    hide *;
    ParseMeetsContract();
    Places();
    stream := new MarkdownStream(Parse);
    var update;
    ghost var place;
    ghost var document := stream.inner;
    First(stream);
    update, place := stream.Push(FIRST);
    AfterFirst(document.blocks, document.definitions, document.settled, document.fence.Some?);
    Second(stream);
    ghost var was, basis := document.blocks, document.settled;
    update, place := stream.Push(SECOND);
    AfterSecond(was, basis, document.blocks, document.definitions, document.settled, document.fence.Some?);
    Third(stream);
    was, basis := document.blocks, document.settled;
    update, place := stream.Push(THIRD);
    AfterThird(was, basis, document.blocks, document.definitions, document.settled, document.fence.Some?);
    Answers(stream);
  }
}
