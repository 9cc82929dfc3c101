/**
 The append-only document. Each chunk is either used to extend the lines of an open fence, or makes
 the tail after the settled blocks be parsed again.
 */
module Incremental {
  import opened Bytes
  import opened LineIndexing
  import opened FenceLines
  import opened CodeBlocks
  import opened OpenFences
  import opened FenceExtension
  import opened FenceRuns
  import opened FenceTargets
  import opened Targets
  import opened Settling
  import opened TailParses

  method BlankLineAt(source: Source, position: nat) returns (blank: bool)
    ensures blank <==> BlankLine(source, position)
  {
    var cursor := position;
    while cursor < |source|
      invariant position <= cursor
      invariant cursor <= |source| || cursor == position
      invariant forall j :: position <= j < cursor && j < |source| ==> IsBlank(source[j])
    {
      if IsBlank(source[cursor]) {
        cursor := cursor + 1;
      } else {
        return source[cursor] == LF || source[cursor] == CR;
      }
    }
    return false;
  }

  /** When the last block of the document can be settled, and up to where. */
  ghost predicate LastBlockSettles(block: Block, source: Source, boundary: Option<nat>) {
    var end := block.source.bytes.end;
    match block.kind
    case Heading(_, _) => boundary == if 0 < end <= |source| && source[end - 1] == LF then Some(end) else None
    case Rule => boundary == if 0 < end <= |source| && source[end - 1] == LF then Some(end) else None
    case Paragraph(_) => boundary == if BlankLine(source, end) then Some(end) else None
    case Table(_) => boundary == if BlankLine(source, end) then Some(end) else None
    case BlockQuote(_) => boundary == if BlankLine(source, end) then Some(end) else None
    case Code(code) => boundary == if code.info.Some? && end < |source| then Some(AfterEol(source, end)) else None
    case List(_) => boundary == None
    case HtmlFallback(_) => boundary == None
  }

  /** The blocks from block `n` on are ready to be looked at for an open fence. */
  ghost predicate TailReady(blocks: seq<Block>, n: nat, targets: nat, source: Source) {
    && n <= |blocks| && AllReady(blocks[n..], source)
    && (n < |blocks| ==> HasLastTargets(blocks[|blocks| - 1], targets))
  }

  class IncrementalDocument {
    const parse: Parser
    var source: Source
    var blocks: seq<Block>
    var targets: seq<Target>
    var outline: seq<OutlineEntry>
    var index: LineIndex
    var settled: Settled
    var definitions: map<Source, Definition>
    var tailDefinitions: seq<Range>
    var fence: Option<OpenFence>
    var parses: nat
    ghost var clips: seq<Clip>
    /** Giving up on settled blocks never reached into a block that stayed. */
    ghost var intact: bool
    /** Giving up on settled blocks never went back behind the start of a commentable node that stayed. */
    ghost var numbered: bool

    /** What is kept about the settled blocks is right, whatever the tail looks like. */
    ghost predicate SettledValid()
      reads this`source, this`blocks, this`targets, this`outline, this`index, this`settled, this`tailDefinitions,
            this`intact, this`numbered, index
    {
      && ParserContract(parse) && index.Indexes(source)
      && settled.blocks <= |blocks| && InBounds(blocks, source)
      && BracketsMatch(settled.brackets, blocks[..settled.blocks], source)
      && DefinitionsMatch(settled, source) && SpansWithin(tailDefinitions, |source|)
      && Resumable(source, settled.sourceEnd) && InLines(blocks[..settled.blocks], source, settled.sourceEnd)
      && (intact ==> numbered && SettledLayout(blocks[..settled.blocks], source, settled.sourceEnd))
      && (numbered ==> SettledNumbered(blocks, targets, outline, settled, source))
    }

    /** The rest of the document is right too. */
    ghost predicate TailValid()
      reads this`source, this`blocks, this`targets, this`outline, this`settled, this`numbered
    {
      && settled.blocks <= |blocks| && TailLayout(blocks[settled.blocks..], source, settled.sourceEnd)
      && (numbered ==> NumberedByLine(blocks, targets, outline, source))
    }

    ghost predicate FenceValid()
      reads this`source, this`blocks, this`targets, this`settled, this`fence, this`clips
    {
      fence.Some? ==> OpenBlockValid(fence.value, blocks, settled.blocks, |targets|, source, clips)
    }

    ghost predicate Valid()
      reads this, index
    {
      SettledValid() && TailValid() && FenceValid()
    }

    lemma SettledWhen()
      requires ParserContract(parse) && index.Indexes(source)
      requires settled.blocks <= |blocks| && InBounds(blocks, source)
      requires BracketsMatch(settled.brackets, blocks[..settled.blocks], source)
      requires DefinitionsMatch(settled, source) && SpansWithin(tailDefinitions, |source|)
      requires Resumable(source, settled.sourceEnd) && InLines(blocks[..settled.blocks], source, settled.sourceEnd)
      requires intact ==> numbered && SettledLayout(blocks[..settled.blocks], source, settled.sourceEnd)
      requires numbered ==> SettledNumbered(blocks, targets, outline, settled, source)
      ensures SettledValid()
    {
      hide ParserContract, LineIndex.Indexes, InBounds, BracketsMatch, DefinitionsMatch, SpansWithin, Resumable,
           InLines, SettledLayout, SettledNumbered;
    }

    lemma SettledMeans()
      requires SettledValid()
      ensures ParserContract(parse) && index.Indexes(source)
      ensures settled.blocks <= |blocks| && InBounds(blocks, source)
      ensures BracketsMatch(settled.brackets, blocks[..settled.blocks], source)
      ensures DefinitionsMatch(settled, source) && SpansWithin(tailDefinitions, |source|)
      ensures Resumable(source, settled.sourceEnd) && InLines(blocks[..settled.blocks], source, settled.sourceEnd)
      ensures intact ==> numbered && SettledLayout(blocks[..settled.blocks], source, settled.sourceEnd)
      ensures numbered ==> SettledNumbered(blocks, targets, outline, settled, source)
    {
      hide ParserContract, LineIndex.Indexes, InBounds, BracketsMatch, DefinitionsMatch, SpansWithin, Resumable,
           InLines, SettledLayout, SettledNumbered;
    }

    constructor (parse: Parser)
      requires ParserContract(parse)
      ensures Valid() && fresh(index) && this.parse == parse
      ensures source == [] && blocks == [] && settled == UNSETTLED && definitions == map[] && tailDefinitions == []
      ensures fence == None && parses == 0 && intact && numbered
    {
      this.parse := parse;
      source, blocks, targets, outline := [], [], [], [];
      index := new LineIndex([]);
      settled := UNSETTLED;
      definitions, tailDefinitions, fence, parses, clips, intact, numbered := map[], [], None, 0, [], true, true;
      new;
      EmptyIsValid();
    }

    lemma EmptyIsValid()
      requires ParserContract(parse) && index.Indexes([])
      requires source == [] && blocks == [] && targets == [] && outline == [] && tailDefinitions == []
      requires settled == UNSETTLED && fence == None && (intact ==> numbered)
      ensures Valid()
    {
      hide ParserContract, Nodes, Numbering, SettledLayout, TailLayout, BracketsMatch, DefinitionsMatch,
           LineIndex.Indexes, OpenBlockValid, InLines, NodesAscend, StartBefore;
      NothingSettled();
      assert blocks[..0] == [] && blocks[0..] == [] && targets[..0] == [] && outline[..0] == [];
    }

    /** The start of the paragraph-like run of lines that ends with the line of `start`. */
    method AttachedStart(start: nat, gapStart: nat) returns (r: nat)
      requires index.Indexes(source) && start <= |source|
      ensures r == AttachedAt(source, start, gapStart) && (r == 0 || source[r - 1] == LF)
    {
      hide BlankLine, LineStart;
      LineStartAgrees(start);
      r := index.LineStartOf(start);
      while r > gapStart
        invariant r <= |source| && AttachedFrom(source, r, gapStart) == AttachedAt(source, start, gapStart)
        invariant r == 0 || source[r - 1] == LF
        decreases r
      {
        LineStartAgrees(r - 1);
        var previous := index.LineStartOf(r - 1);
        var blank := BlankLineAt(source, previous);
        if previous < gapStart || blank {
          break;
        }
        r := previous;
      }
    }

    lemma LineStartAgrees(offset: nat)
      requires index.Indexes(source) && offset <= |source|
      ensures index.LineStartOf(offset) == LineStart(source, offset)
      ensures LineStart(source, offset) == 0 || source[LineStart(source, offset) - 1] == LF
    {
      index.LineStartOfIsLineStart(source, offset);
      var k := index.LineStartOf(offset);
      assert source[..offset][k..] == source[k..offset];
      LastPieceIs(source[..offset], k);
    }

    /** Where block `at` ends for good, if it does. With a block after it that starts on a line of its own,
        everything before the text attached to that block is settled; the last block settles by its kind. */
    method SettleBoundary(at: nat, ghost end: nat) returns (boundary: Option<nat>)
      requires index.Indexes(source) && at < |blocks| && TailLayout(blocks[at..], source, end)
               && AllReady(blocks[at..], source)
      ensures boundary.Some? ==>
                && blocks[at].source.bytes.end <= boundary.value <= |source| && Resumable(source, boundary.value)
                && NodesBeforeEnd(blocks[at]) && Apart(blocks[at + 1..], source, boundary.value)
      ensures at + 1 == |blocks| ==> LastBlockSettles(blocks[at], source, boundary)
      ensures at + 1 < |blocks| ==> (boundary.Some? <==> Separates(blocks, source, at))
    {
      hide NodesOf, LineStart, BlankLine, ReadyFence;
      LayoutAt(blocks, at, source, end);
      ReadyAt(blocks[at..], source, 0);
      var block := blocks[at];
      var blockEnd := block.source.bytes.end;
      if at + 1 < |blocks| {
        var start := blocks[at + 1].source.bytes.start;
        assert blocks[at + 1..][0] == blocks[at + 1];
        index.LineCompleteIffTerminated(source, start);
        if !index.LineComplete(start) {
          return None;
        }
        AttachedKeepsGapIff(source, start, blockEnd);
        var attached := AttachedStart(start, blockEnd);
        boundary := if attached >= blockEnd then Some(attached) else None;
        return;
      }
      match block.kind
      case Heading(_, _) =>
        boundary := if blockEnd > 0 && source[blockEnd - 1] == LF then Some(blockEnd) else None;
      case Rule =>
        boundary := if blockEnd > 0 && source[blockEnd - 1] == LF then Some(blockEnd) else None;
      case Paragraph(_) =>
        var blank := BlankLineAt(source, blockEnd);
        boundary := if blank then Some(blockEnd) else None;
      case Table(_) =>
        var blank := BlankLineAt(source, blockEnd);
        boundary := if blank then Some(blockEnd) else None;
      case BlockQuote(_) =>
        var blank := BlankLineAt(source, blockEnd);
        boundary := if blank then Some(blockEnd) else None;
      case Code(code) =>
        if code.info.Some? && blockEnd < |source| {
          ClosedCodeResumes(block, source);
          boundary := Some(AfterEol(source, blockEnd));
        } else {
          boundary := None;
        }
      case List(_) => boundary := None;
      case HtmlFallback(_) => boundary := None;
    }

    /** Counts of targets and headings that belong to settled blocks, found by source position. They are those of the
        settled blocks if and only if the nodes of these start before the settled end. */
    method SyncSettledCounts()
      requires settled.blocks <= |blocks| && settled.sourceEnd <= |source|
      requires numbered ==>
                 && NumberedByLine(blocks, targets, outline, source)
                 && StartFrom(Nodes(blocks[settled.blocks..]), settled.sourceEnd)
                 && (StartBefore(Nodes(blocks[..settled.blocks]), settled.sourceEnd)
                     || LineStart(source, settled.sourceEnd) == settled.sourceEnd)
      modifies this`settled
      ensures settled == old(settled).(targets := TargetsBefore(targets, settled.sourceEnd),
                                       outline := HeadingsBefore(outline, settled.sourceEnd))
      ensures numbered ==>
                && CountsIff(StartBefore(Nodes(blocks[..settled.blocks]), settled.sourceEnd),
                             blocks[..settled.blocks], targets, outline, settled.targets, settled.outline)
                && NodesAscend(Nodes(blocks[..settled.blocks]), source)
                && IsCut(targets, settled.targets, settled.sourceEnd)
    {
      hide IsCut, NumberedByLine, CountsIff, StartBefore, StartFrom, NodesAscend, Nodes, LineStart, TargetsBefore,
           HeadingsBefore;
      if numbered {
        CountsAtCut(blocks, settled.blocks, targets, outline, source, settled.sourceEnd);
      }
      settled := settled.(targets := TargetsBefore(targets, settled.sourceEnd),
                          outline := HeadingsBefore(outline, settled.sourceEnd));
    }

    /** One flag for each block settled now. */
    method CollectBrackets(n: nat) returns (brackets: seq<bool>)
      requires settled.blocks <= n <= |blocks| && InBounds(blocks, source)
      requires BracketsMatch(settled.brackets, blocks[..settled.blocks], source)
      ensures BracketsMatch(brackets, blocks[..n], source)
    {
      brackets := settled.brackets;
      for i := settled.blocks to n
        invariant BracketsMatch(brackets, blocks[..i], source)
      {
        var bytes := blocks[i].source.bytes;
        var bracket := !blocks[i].kind.Code? && BRACKET in source[bytes.start..bytes.end];
        brackets := brackets + [bracket];
      }
    }

    /** Definitions that end by `end` are settled, in order, into the prefix for later parses. */
    method SettleDefinitions(end: nat)
      requires end == settled.sourceEnd && DefinitionsMatch(settled, source) && SpansWithin(tailDefinitions, |source|)
      modifies this`settled, this`tailDefinitions
      ensures settled == old(settled).(definitions := settled.definitions, prefix := settled.prefix)
      ensures DefinitionsMatch(settled, source) && SpansWithin(tailDefinitions, |source|)
      ensures settled.definitions == old(settled.definitions) + SpansUpTo(old(tailDefinitions), end)
      ensures tailDefinitions == SpansBeyond(old(tailDefinitions), end)
    {
      hide PrefixOf, SpansUpTo, SpansBeyond, DefinitionsMatch, SpansWithin;
      var spans, remaining := tailDefinitions, [];
      TakeNoSpans(spans, end);
      NoSpans(|source|);
      for i := 0 to |spans|
        invariant settled == old(settled).(definitions := settled.definitions, prefix := settled.prefix)
        invariant settled.definitions == old(settled.definitions) + SpansUpTo(spans[..i], end)
        invariant remaining == SpansBeyond(spans[..i], end)
        invariant DefinitionsMatch(settled, source) && SpansWithin(remaining, |source|)
        modifies this`settled
      {
        var span := spans[i];
        TakeSpan(spans, i, end);
        SpanAt(spans, i, |source|);
        OneSpanMore(remaining, span, |source|);
        if span.end <= end {
          DefinitionTaken(settled, span, source);
          settled := settled.(prefix := settled.prefix + source[span.start..span.end] + [LF],
                              definitions := settled.definitions + [span]);
        } else {
          remaining := remaining + [span];
        }
      }
      assert spans[..|spans|] == spans;
      tailDefinitions := remaining;
    }

    method SettleTo(n: nat, end: nat)
      requires ParserContract(parse) && index.Indexes(source) && InBounds(blocks, source)
      requires settled.blocks <= n <= |blocks| && settled.sourceEnd <= end && Resumable(source, end)
      requires BracketsMatch(settled.brackets, blocks[..settled.blocks], source)
      requires DefinitionsMatch(settled, source) && SpansWithin(tailDefinitions, |source|)
      requires TailLayout(blocks[n..], source, end) && InLines(blocks[..n], source, end)
      requires intact ==> numbered && SettledLayout(blocks[..n], source, end)
      requires numbered ==>
                 && NumberedByLine(blocks, targets, outline, source)
                 && StartBefore(Nodes(blocks[..n]), end) && StartFrom(Nodes(blocks[n..]), end)
      modifies this`settled, this`tailDefinitions
      ensures SettledValid() && TailValid()
      ensures settled.blocks == n && settled.sourceEnd == end
      ensures settled.definitions == old(settled.definitions) + SpansUpTo(old(tailDefinitions), end)
      ensures tailDefinitions == SpansBeyond(old(tailDefinitions), end)
    {
      hide Numbering, ParserContract, LineIndex.Indexes, TailLayout, SettledLayout, BracketsMatch, InBounds, InLines,
           NumberedByLine, StartBefore, StartFrom, NodesAscend, Nodes, LineStart, TargetsBefore, HeadingsBefore,
           SettledNumbered, CountsIff, Resumable, SpansWithin, IsCut, IncrementalDocument.SettledValid;
      var brackets := CollectBrackets(n);
      settled := settled.(blocks := n, sourceEnd := end, brackets := brackets);
      DefinitionsLater(old(settled), settled, source);
      SyncSettledCounts();
      DefinitionsLater(old(settled), settled, source);
      SettleDefinitions(end);
      NumberedByCounts(numbered, blocks, targets, outline, settled, source);
      SettledWhen();
    }

    /** Settles as many blocks as have a boundary, in order. */
    method SettleTail()
      requires SettledValid() && TailValid() && TailReady(blocks, settled.blocks, |targets|, source)
      modifies this`settled, this`tailDefinitions
      ensures SettledValid() && TailValid() && TailReady(blocks, settled.blocks, |targets|, source)
      ensures old(settled.blocks) <= settled.blocks && old(settled.sourceEnd) <= settled.sourceEnd
      ensures SettledFrom(blocks, source, settled, old(settled.blocks), old(settled.sourceEnd))
    {
      hide Numbering, NodesOf, LineStart, ParserContract, LineIndex.Indexes, Nodes, LastBlockSettles, Separates,
           SettledLayout, BracketsMatch, TailLayout, Apart, NodesBeforeEnd, AllReady, InBounds, DefinitionsMatch,
           Resumable, InLines, NumberedByLine, StartBefore, StartFrom, NodesAscend;
      var n, end := settled.blocks, settled.sourceEnd;
      var boundary := None;
      while n < |blocks|
        invariant old(settled.blocks) <= n <= |blocks| && old(settled.sourceEnd) <= end && Resumable(source, end)
        invariant TailLayout(blocks[n..], source, end) && AllReady(blocks[n..], source)
        invariant InLines(blocks[..n], source, end)
        invariant intact ==> SettledLayout(blocks[..n], source, end)
        invariant numbered ==> StartBefore(Nodes(blocks[..n]), end)
        invariant n > old(settled.blocks) ==> Apart(blocks[n..], source, end)
        invariant n == old(settled.blocks) ==> end == old(settled.sourceEnd)
        invariant n == |blocks| > old(settled.blocks) ==> LastBlockSettles(blocks[n - 1], source, Some(end))
        invariant forall i :: old(settled.blocks) <= i < n && i + 1 < |blocks| ==> Separates(blocks, source, i)
        invariant settled == old(settled) && tailDefinitions == old(tailDefinitions)
        decreases |blocks| - n
        modifies {}
      {
        boundary := SettleBoundary(n, end);
        if boundary.None? {
          break;
        }
        LayoutStep(blocks, n, source, end, boundary.value, intact, numbered);
        ReadyRest(blocks, n, source);
        end := boundary.value;
        n := n + 1;
      }
      if n > settled.blocks {
        TailStartsFrom(blocks[n..], source, end);
        SettleTo(n, end);
      }
    }

    /** Gives up on settled blocks from `block` on; definitions beyond the new end leave the prefix. The
        blocks that stay are still before that end if and only if `block` starts on a line of its own, and the
        targets that stay are those of these blocks if and only if their nodes start before it. */
    method Unsettle(block: nat)
      requires SettledValid() && TailValid() && block < settled.blocks
      modifies this`settled, this`fence, this`intact, this`numbered
      ensures SettledValid() && fence == None
      ensures settled.blocks == block && settled.brackets == old(settled.brackets)[..block]
      ensures settled.sourceEnd == BackTo(source, blocks, block)
      ensures settled.definitions == SpansUpTo(old(settled.definitions), settled.sourceEnd)
      ensures intact <==> old(intact) && OnOwnLine(source, blocks, block)
      ensures old(intact) ==> (SettledLayout(blocks[..block], source, settled.sourceEnd) <==>
                               OnOwnLine(source, blocks, block))
      ensures numbered <==> old(numbered) && StaysBefore(source, blocks, block)
      ensures old(numbered) ==> CountsIff(StaysBefore(source, blocks, block), blocks[..block], targets, outline,
                                          settled.targets, settled.outline)
    {
      hide Numbering, NodesOf, LineStart, ParserContract, LineIndex.Indexes, Nodes, SettledLayout, TailLayout,
           AttachedAt, BlankLine, PrefixOf, SpansUpTo, InBounds, BackTo, OnOwnLine, StaysBefore, BracketsMatch, InLines,
           StartBefore, StartFrom, NodesAscend, NumberedByLine, TargetsBefore, HeadingsBefore, SettledNumbered,
           CountsIff, Resumable, SpansWithin, IncrementalDocument.SettledValid;
      SettledMeans();
      BlockBounds(blocks, block, source);
      var gapStart := if block == 0 then 0 else blocks[block - 1].source.bytes.end;
      var end := AttachedStart(blocks[block].source.bytes.start, gapStart);
      Retreats(blocks, settled.blocks, source, settled.sourceEnd, block, intact);
      var kept, prefix := RetainDefinitions(end);
      FewerBrackets(settled.brackets, blocks, settled.blocks, block, source);
      settled := settled.(blocks := block, sourceEnd := end, brackets := settled.brackets[..block],
                          definitions := kept, prefix := prefix);
      SyncSettledCounts();
      NumberedByCounts(StaysBefore(source, blocks, block), blocks, targets, outline, settled, source);
      LineStartResumes(source, end);
      intact := intact && OnOwnLine(source, blocks, block);
      numbered := numbered && StaysBefore(source, blocks, block);
      SettledWhen();
      fence := None;
    }

    method RetainDefinitions(end: nat) returns (kept: seq<Range>, prefix: Source)
      requires DefinitionsMatch(settled, source) && end <= |source|
      ensures kept == SpansUpTo(settled.definitions, end) && SpansWithin(kept, end) && SpansWithin(kept, |source|)
      ensures prefix == PrefixOf(kept, source)
    {
      hide SpansUpTo, SpansBeyond, DefinitionsMatch, SpansWithin;
      kept, prefix := [], [];
      TakeNoSpans(settled.definitions, end);
      NoSpans(end);
      NoSpans(|source|);
      for i := 0 to |settled.definitions|
        invariant kept == SpansUpTo(settled.definitions[..i], end) && SpansWithin(kept, end)
        invariant SpansWithin(kept, |source|)
        invariant prefix == PrefixOf(kept, source)
      {
        var span := settled.definitions[i];
        TakeSpan(settled.definitions, i, end);
        DefinitionAt(settled, i, source);
        if span.end <= end {
          PrefixPush(kept, span, source);
          OneSpanMore(kept, span, end);
          SpansLater(kept + [span], end, |source|);
          kept := kept + [span];
          prefix := prefix + source[span.start..span.end] + [LF];
        }
      }
      assert settled.definitions[..|settled.definitions|] == settled.definitions;
    }

    /** Replaces everything after the settled blocks by freshly parsed ones and numbers them. */
    method Install(parsed: seq<Block>)
      requires SettledValid() && TailLayout(parsed, source, settled.sourceEnd)
      requires forall i :: 0 <= i < |parsed| ==> FreshFence(parsed[i], source)
      modifies this`blocks, this`targets, this`outline
      ensures SettledValid() && TailValid() && TailReady(blocks, settled.blocks, |targets|, source)
      ensures blocks[..settled.blocks] == old(blocks)[..settled.blocks] && TailIs(blocks, settled.blocks, parsed)
      // The targets kept, and then those of the new nodes.
      ensures var kept := Truncated(old(targets), settled.targets);
              && targets == kept + TargetsOf(Nodes(parsed), |kept|)
              && outline == Truncated(old(outline), settled.outline) + Headings(blocks[settled.blocks..])
              && Nodes(blocks[settled.blocks..]) == Numbered(Nodes(parsed), |kept|)
      // The document is numbered if and only if the targets kept are those of the settled blocks.
      ensures Numbering(blocks, targets, outline) <==>
              Numbering(blocks[..settled.blocks], Truncated(old(targets), settled.targets),
                        Truncated(old(outline), settled.outline))
      ensures Short(blocks[..settled.blocks], Min(settled.targets, |old(targets)|)) ==>
              Misnumbered(blocks, targets, outline, settled.blocks)
    {
      hide Numbering, NodesOf, LineStart, ParserContract, LineIndex.Indexes, Nodes, SameBlock, FreshFence, AllReady,
           SameSources, InOrder, TailLayout, BracketsMatch, DefinitionsMatch, SettledLayout, Resumable, InLines,
           StartBefore, NodesAscend, SharesId, Short, IncrementalDocument.SettledValid, SpansWithin, InBounds,
           HasLastTargets;
      SettledMeans();
      var kept := blocks[..settled.blocks];
      var keptTargets, keptOutline := Truncated(targets, settled.targets), Truncated(outline, settled.outline);
      var done, numbered, headings := AssignTargets(parsed, keptTargets, keptOutline);
      TailLayoutSame(parsed, done, source, settled.sourceEnd);
      AllBecomeReady(parsed, done, source, settled.sourceEnd);
      LastTargets(parsed, done, |keptTargets|);
      BoundsJoin(blocks, settled.blocks, done, source, settled.sourceEnd);
      assert (kept + done)[..settled.blocks] == kept && (kept + done)[settled.blocks..] == done;
      KnownOfSettled();
      NumberingJoinIff(kept, parsed, done, keptTargets, keptOutline);
      ShortIsNot(kept, keptTargets, keptOutline);
      if this.numbered {
        assert numbered[..settled.targets] == keptTargets && headings[..settled.outline] == keptOutline;
        NumberedDependsOnPrefix(blocks, targets, outline, settled, source, kept + done, numbered, headings);
        InstalledByLine(kept, done, source, settled.sourceEnd);
      }
      blocks, targets, outline := kept + done, numbered, headings;
      SettledWhen();
    }

    /** Remembers the last block as an open fence when it is a fenced block that reaches the end of
        the source below a complete opening line. */
    method DetectFence()
      requires SettledValid() && TailValid() && TailReady(blocks, settled.blocks, |targets|, source) && fence == None
      modifies this`fence, this`clips
      ensures Valid()
      ensures fence.Some? <==> settled.blocks < |blocks| && OpensFence(blocks[|blocks| - 1], source)
      ensures fence.Some? ==> StartsFromScratch(fence.value, blocks, source, clips)
    {
      hide Numbering, NodesOf, LineStart, ParserContract, Nodes, TailLayout, SettledNumbered, SettledLayout, InLines,
           NumberedByLine, ReadyFence, LineIndex.Indexes, ScratchBody, InitialClips, OpenBlockValid, BracketsMatch,
           DefinitionsMatch, Terminated, Scanned, LineIndex.LineComplete, InBounds, Resumable;
      if settled.blocks < |blocks| {
        var last := |blocks| - 1;
        var block := blocks[last];
        var start := block.source.bytes.start;
        ReadyAt(blocks[settled.blocks..], source, last - settled.blocks);
        index.LineCompleteIffTerminated(source, start);
        if block.kind.Code? && block.kind.code.info.Some? && block.source.bytes.end == |source|
            && index.LineComplete(start) {
          var open := ScanOpenFence(last);
          clips := InitialClips(open, source);
          OpenedBlockValid(open, blocks, settled.blocks, |targets|, source);
          fence := Some(open);
        }
      }
    }

    method ScanFrom(lineStart: nat, marker: byte, count: nat) returns (state: FenceLine)
      requires lineStart <= |source|
      ensures state == ScanLine(source[lineStart..], marker, count)
    {
      state := Indent(0);
      for i := lineStart to |source|
        invariant state == ScanLine(source[lineStart..i], marker, count)
      {
        SlicePush(source, lineStart, i);
        ScanPush(source[lineStart..i], source[i], marker, count);
        state := state.Feed(source[i], marker, count);
      }
      assert source[lineStart..|source|] == source[lineStart..];
    }

    method ScanOpenFence(last: nat) returns (open: OpenFence)
      requires index.Indexes(source) && last < |blocks| && blocks[last].kind.Code? && blocks[last].kind.code.info.Some?
      requires blocks[last].source.bytes.start <= blocks[last].source.bytes.end == |source|
      requires ReadyFence(blocks[last], source)
      requires Terminated(source, blocks[last].source.bytes.start)
      ensures open.contentStart <= |source|
      ensures Scanned(open, source) && open.block == last && open.start == blocks[last].source.bytes.start
      ensures blocks[last].target.Some?
      ensures blocks[last].kind.code.body == ScratchBody(open.start, |source|, source, blocks[last].target.value)
    {
      hide LineStart, ContentRange, FencedBody, AimLines, Lay, SplitLF, Opened, ClosedByCR, FenceMarker, ScratchBody,
           ClosedOrScannable, CountLF, Starts, TerminatedEnds, ScanLine, Terminated;
      var start := blocks[last].source.bytes.start;
      TerminatedOpening(source, start);
      var openingEnd := start + FirstLF(source[start..]) + 1;
      var (marker, count) := FenceMarker(source[start..openingEnd]);
      index.LineStartOfIsLineStart(source, |source|);
      var lineStart := Max(index.LineStartOf(|source|), openingEnd);
      AfterLineStart(source, index.LineStartOf(|source|), openingEnd);
      var state := ScanFrom(lineStart, marker, count);
      index.LineBreaksAfterCounts(source, openingEnd);
      open := OpenFence(last, marker, count, start, openingEnd, lineStart, index.LineBreaksAfter(openingEnd), state);
      DetectedIsScanned(open, source, blocks[last]);
    }

    /** Parses from the last settled offset on and puts the result behind the settled blocks. */
    method ParseOnce() returns (parsed: Parsed)
      requires SettledValid()
      modifies this`blocks, this`targets, this`outline, this`parses
      ensures SettledValid() && TailValid() && TailReady(blocks, settled.blocks, |targets|, source)
              && SpansWithin(parsed.tailDefinitions, |source|)
      ensures parsed == parse(source, settled.sourceEnd, settled.prefix) && parses == old(parses) + 1
      ensures blocks[..settled.blocks] == old(blocks)[..settled.blocks] && TailIs(blocks, settled.blocks, parsed.blocks)
      ensures Short(blocks[..settled.blocks], Min(settled.targets, |old(targets)|)) ==>
              Misnumbered(blocks, targets, outline, settled.blocks)
    {
      hide Numbering, NodesOf, LineStart, ParserContract, LineIndex.Indexes, Nodes, SettledNumbered, SettledLayout,
           InLines, NumberedByLine, ReadyFence, FreshFence, TailLayout, SameBlock, WellParsed, BracketsMatch, InBounds,
           Short, Misnumbered;
      parsed := parse(source, settled.sourceEnd, settled.prefix);
      ParsedWell(parse, source, settled, parsed);
      parses := parses + 1;
      Install(parsed.blocks);
    }

    /** Gives up on settled blocks from the first one with a bracket on; told in terms of the blocks before a parse that
        left the settled ones alone. */
    method StepBack(bracket: nat, ghost was: seq<Block>, ghost defined: map<Source, Definition>,
                    ghost before: Standing)
      requires SettledValid() && TailValid() && Known(settled, was, source) && GivesUp(parse, source, settled, defined)
      requires bracket == FirstTrue(settled.brackets)
               && Standing(parses, intact, numbered) == before.(parses := before.parses + 1)
      requires settled.blocks <= |blocks| && blocks[..settled.blocks] == was[..settled.blocks]
      modifies this`settled, this`fence, this`intact, this`numbered
      ensures SettledValid() && fence == None
      ensures SteppedBack(parse, source, was, old(settled), defined, before, blocks, settled, |targets|,
                          Standing(parses, intact, numbered))
    {
      hide *;
      SettledMeans();
      ghost var basis := settled;
      BracketIsSettled(parse, source, was, settled, defined);
      Unsettle(bracket);
      SettledMeans();
      StepsBack(parse, source, was, basis, defined, before, blocks, settled, targets, outline,
                Standing(parses, intact, numbered));
    }

    /** Parses the tail until the reference definitions stay what they were: once more, from the first settled
        block with a bracket on, when they change and there is one. The result is the first block that may differ. */
    method ParseUntilStable() returns (first: nat)
      requires SettledValid() && fence == None
      modifies this`blocks, this`targets, this`outline, this`settled, this`definitions, this`tailDefinitions,
               this`fence, this`parses, this`intact, this`numbered
      ensures SettledValid() && TailValid() && TailReady(blocks, settled.blocks, |targets|, source) && fence == None
      ensures first == settled.blocks
      ensures Reached(parse, source, old(blocks), old(settled), old(definitions),
                      old(Standing(parses, intact, numbered)), first, settled.sourceEnd, blocks, targets, outline,
                          definitions, Standing(parses, intact, numbered))
    {
      hide *;
      KnownOfSettled();
      SettledMeans();
      first := settled.blocks;
      ghost var was, basis, defined, before := blocks, settled, definitions, Standing(parses, intact, numbered);
      while true
        invariant SettledValid() && fence == None && SpansWithin(tailDefinitions, |source|)
        invariant if parses == before.parses then
                    && settled == basis && blocks == was && definitions == defined
                    && Standing(parses, intact, numbered) == before
                    && first == settled.blocks
                  else
                    && parses == before.parses + 1 && first == basis.blocks
                    && SteppedBack(parse, source, was, basis, defined, before, blocks, settled, |targets|,
                                   Standing(parses, intact, numbered))
        decreases before.parses + 1 - parses
      {
        first := Min(first, settled.blocks);
        ghost var half, count, between := blocks, |targets|, Standing(parses, intact, numbered);
        var parsed := ParseOnce();
        KnownOfSettled();
        if between.parses > before.parses {
          ParsedAgain(parse, source, was, basis, defined, before, half, count, settled, between,
                      Standing(parses, intact, numbered), blocks, targets, outline);
        } else {
          ParsedOnce(parse, source, was, settled, definitions, before, Standing(parses, intact, numbered), blocks,
                     targets, outline);
        }
        if parsed.definitions != definitions {
          definitions := parsed.definitions;
          var bracket := FirstTrue(settled.brackets);
          if bracket < |settled.brackets| {
            StepBack(bracket, was, defined, before);
            continue;
          }
        }
        SettledMeans();
        tailDefinitions := parsed.tailDefinitions;
        SettledWhen();
        break;
      }
    }

    lemma KnownOfSettled()
      requires SettledValid()
      ensures Known(settled, blocks, source) && settled.blocks <= |blocks| && InBounds(blocks, source)
    {
      hide ParserContract, LineIndex.Indexes, SettledNumbered, SettledLayout, InLines, Resumable;
    }

    /** Parses the tail, settles what can be settled of it and looks for an open fence. */
    method ParseTail() returns (first: nat, ghost from: nat)
      requires SettledValid() && fence == None
      modifies this`blocks, this`targets, this`outline, this`settled, this`definitions, this`tailDefinitions,
               this`fence, this`parses, this`clips, this`intact, this`numbered
      ensures Valid() && first <= Frontier()
      ensures Reached(parse, source, old(blocks), old(settled), old(definitions),
                      old(Standing(parses, intact, numbered)), first, from, blocks, targets, outline, definitions,
                          Standing(parses, intact, numbered))
      ensures SettledFrom(blocks, source, settled, first, from)
      ensures fence.Some? <==> settled.blocks < |blocks| && OpensFence(blocks[|blocks| - 1], source)
      ensures fence.Some? ==> StartsFromScratch(fence.value, blocks, source, clips)
    {
      hide *;
      first := ParseUntilStable();
      from := settled.sourceEnd;
      SettleTail();
      DetectFence();
      FrontierInBounds();
    }

    /** Uses the bytes from `start` on to extend the open block. */
    method ExtendFence(start: nat) returns (resume: Option<nat>, line: nat)
      requires SettledValid() && fence.Some? && start <= |source|
      requires TailLayout(blocks[settled.blocks..], source[..start], settled.sourceEnd)
      requires numbered ==> NumberedByLine(blocks, targets, outline, source)
      requires OpenBlockValid(fence.value, blocks, settled.blocks, |targets|, source[..start], clips)
      modifies this`blocks, this`targets, this`fence, this`clips
      ensures SettledValid() && TailValid()
      ensures |blocks| == |old(blocks)| && SamePrefix(old(blocks), blocks, |blocks| - 1, line)
      ensures ExtendedBlock(old(fence).value, old(blocks)[|blocks| - 1], blocks[|blocks| - 1], source, start,
                            old(clips), fence, clips, resume)
      ensures old(fence).value.contentStart <= start && resume == ResumesAt(old(fence).value, source, start)
      ensures resume.Some? ==>
                blocks[|blocks| - 1].source.bytes.end <= resume.value <= |source| && Resumable(source, resume.value)
      ensures resume.None? ==> FenceValid() && fence.Some?
      ensures resume.Some? ==> fence.None? && NodesBeforeEnd(blocks[|blocks| - 1])
    {
      hide Numbering, NodesOf, LineStart, ParserContract, Nodes, TailLayout, BracketsMatch, DefinitionsMatch,
           SettledNumbered, SettledLayout, InLines, NumberedByLine, LinesExtended, ContentRange, LineIndex.Indexes,
           NodesWithin, NodesBeforeEnd, AimLines, Tracks, CodeNodes, Resumable, LineOf, SameLines, TargetsOf, Scanned,
           ScratchBody, IsClosingEnd, TrackedBody, NextClips, FirstClosingEnd, AfterEol, InBounds, SpansWithin,
           IncrementalDocument.SettledValid, SamePrefix;
      SettledMeans();
      var opening, last := fence.value, |blocks| - 1;
      var previous := blocks[last];
      ghost var base := previous.target.value;
      var open, close, code, changed;
      ghost var next;
      open, close, code, changed, next := ExtendCode(opening, source, start, previous.kind.code, index, clips, base);
      ExtendedFacts(opening, source, start, previous.kind.code.body, clips, base, open, close.Some?,
                    EndOf(close, source), code.body, changed, next);
      ghost var before := blocks[..last];
      assert blocks == before + [previous];
      var synced, synchronized := SyncCodeTargets(code, targets, changed);
      SyncedSize(code, targets, synchronized, base, changed);
      var block := previous.(kind := Code(synced), source := code.source);
      ExtendedNodesWithin(opening, source, start, previous.kind.code.body, clips, base, open, close.Some?,
                          EndOf(close, source), code.body, changed, next, block);
      TailExtended(before, previous, block, settled.blocks, source, start, settled.sourceEnd);
      if numbered {
        KeepsNumbering(before, previous, block, code, targets, outline, synchronized, changed, settled, source);
      }
      SamePrefixLast(before, previous, block, code.body, base, changed);
      SettledStays(before, previous, block, settled.blocks, source);
      assert blocks[last := block] == before + [block];
      if close.Some? {
        ClosedIsResumable(opening, source, close.value.end);
      }
      line := changed;
      clips := next;
      blocks, targets := blocks[last := block], synchronized;
      resume := if close.Some? then Some(close.value.resume) else None;
      fence := if close.Some? then None else Some(open);
      SettledWhen();
    }

    /** Changes do not reach before this block unless settled blocks are given up on. */
    ghost function Frontier(): nat
      reads this`fence, this`settled
    {
      if fence.Some? then fence.value.block else settled.blocks
    }

    lemma ValidWhen()
      requires SettledValid() && TailValid() && (fence.Some? ==> FenceValid())
      ensures Valid()
    {
      hide IncrementalDocument.SettledValid, IncrementalDocument.TailValid, OpenBlockValid;
    }

    lemma FrontierInBounds()
      requires Valid()
      ensures settled.blocks <= Frontier() <= |blocks|
      ensures fence.Some? ==> Frontier() == |blocks| - 1
    {
      hide ParserContract, LineIndex.Indexes, SettledNumbered, SettledLayout, InLines, NumberedByLine, Resumable,
           TailLayout, BracketsMatch,
           OpenBlockValid, InBounds, DefinitionsMatch;
      if fence.Some? {
        OpenIsLast(fence.value, blocks, settled.blocks, |targets|, source, clips);
      }
    }

    /** What is settled when appending `chunk` parses the tail, if it does. */
    ghost function Basis(chunk: Source): (r: Option<Settled>)
      requires Valid()
      reads this, index
      ensures r.Some? ==> Known(r.value, blocks, source + chunk)
    {
      var grown := source + chunk;
      GrownIsKnown(chunk);
      if fence.None? then Some(settled)
      else
        match ResumesAt(fence.value, grown, |source|)
        case None => None
        case Some(resume) =>
          if resume < |grown| then Some(ClosedSettled(settled, blocks, grown, tailDefinitions, fence.value.block,
                                                      resume)) else None
    }

    /** Appending `chunk` gives up on settled blocks. */
    ghost predicate ParsesTwice(chunk: Source)
      requires Valid()
      reads this, index
    {
      Basis(chunk).Some? && GivesUp(parse, source + chunk, Basis(chunk).value, definitions)
    }

    /** The first block that may change when `chunk` is appended. */
    ghost function FirstChange(chunk: Source): (r: nat)
      requires Valid()
      reads this, index
      ensures r <= Frontier() && (ParsesTwice(chunk) || r == Frontier())
    {
      if ParsesTwice(chunk) then FirstTrue(Basis(chunk).value.brackets) else Frontier()
    }

    lemma GrownIsKnown(chunk: Source)
      requires Valid()
      ensures Known(settled, blocks, source + chunk) && SpansWithin(tailDefinitions, |source + chunk|)
      ensures fence.Some? ==>
                && settled.blocks <= fence.value.block == |blocks| - 1 && fence.value.contentStart <= |source|
                && (ResumesAt(fence.value, source + chunk, |source|).Some? ==>
                      var resume := ResumesAt(fence.value, source + chunk, |source|).value;
                      Known(ClosedSettled(settled, blocks, source + chunk, tailDefinitions, fence.value.block, resume),
                            blocks, source + chunk))
    {
      hide ParserContract, LineIndex.Indexes, SettledNumbered, SettledLayout, InLines, NumberedByLine, Resumable,
           TailLayout, BracketsMatch,
           OpenBlockValid, ResumesAt, ClosedSettled;
      KnownOfSettled();
      KnownGrows(settled, blocks, source, chunk, tailDefinitions);
      if fence.Some? {
        OpenIsLast(fence.value, blocks, settled.blocks, |targets|, source, clips);
        ClosedIsKnown(settled, blocks, source + chunk, tailDefinitions, fence.value, |source|);
      }
    }

    /** Settles everything up to where parsing resumes behind a closed fence. */
    method SettleClosed(resume: nat, ghost was: seq<Block>)
      requires SettledValid() && TailValid() && settled.blocks < |blocks| == |was| && blocks[|blocks| - 1].kind.Code?
      requires was[..|was| - 1] == blocks[..|blocks| - 1]
      requires NodesBeforeEnd(blocks[|blocks| - 1]) && blocks[|blocks| - 1].source.bytes.end <= resume
               && Resumable(source, resume)
      modifies this`settled, this`tailDefinitions
      ensures SettledValid() && TailValid() && settled.blocks == |blocks| && settled.sourceEnd == resume
      ensures |settled.brackets| == |blocks| && !settled.brackets[|blocks| - 1]
      ensures SpansWithin(old(settled).definitions, |source|) && SpansWithin(old(tailDefinitions), |source|)
      ensures settled == ClosedSettled(old(settled), was, source, old(tailDefinitions), |blocks| - 1, resume)
                         .(targets := settled.targets, outline := settled.outline)
    {
      hide Numbering, NodesOf, LineStart, ParserContract, Nodes, SettledLayout, TailLayout, NodesBeforeEnd,
           LineIndex.Indexes, SettledNumbered, NumberedByLine, InLines, InBounds, ClosedSettled, StartBefore, StartFrom;
      KnownOfSettled();
      TailEnds(blocks, settled.blocks, source, settled.sourceEnd);
      if intact {
        SettleWhole(blocks, settled.blocks, source, settled.sourceEnd, resume);
      }
      WholeInLines(blocks, settled.blocks, source, settled.sourceEnd, resume);
      if numbered {
        NumberedStarts(blocks, targets, outline, settled, source);
        WholeStartsBefore(blocks, settled.blocks, source, settled.sourceEnd, resume);
      }
      NothingLeft(blocks, source, resume);
      SettleTo(|blocks|, resume);
      ClosedIs(old(settled), settled, was, blocks, source, old(tailDefinitions), |blocks| - 1, resume);
    }

    /** Parses what follows the fence that was just closed, the last block; told in terms of the blocks before that. */
    method ParseBehindFence(ghost was: seq<Block>, ghost basis: Settled) returns (discarded: nat)
      requires SettledValid() && fence == None && InBounds(was, source) && |was| == |blocks| > 0
      requires was[..|was| - 1] == blocks[..|was| - 1] && blocks[|was| - 1].kind.Code?
      requires settled == basis.(targets := settled.targets, outline := settled.outline) && settled.blocks == |was|
      requires |settled.brackets| == |was| && !settled.brackets[|was| - 1]
      modifies this`blocks, this`targets, this`outline, this`settled, this`definitions, this`tailDefinitions,
               this`fence, this`parses, this`clips, this`intact, this`numbered
      ensures Valid()
      ensures Reparsed(parse, source, was, Some(basis), old(definitions), |was| - 1, blocks, definitions, settled,
                       fence.Some?)
      ensures var gives := GivesUp(parse, source, basis, old(definitions));
              && (discarded >= |was| <==> !gives)
              && (if gives then FirstTrue(basis.brackets) else |was| - 1) <= Frontier()
              && (gives ==> FirstTrue(basis.brackets) < |was| - 1)
              && (!gives ==> |was| <= |blocks| && blocks[..|was|] == old(blocks))
              && StandsAfter(source, was, gives, FirstTrue(basis.brackets), old(Standing(parses, intact, numbered)),
                             Standing(parses, intact, numbered), blocks, targets, outline)
    {
      hide IncrementalDocument.SettledValid, IncrementalDocument.TailValid, IncrementalDocument.FenceValid,
           ParserContract, ClosedSettled, TailParsed, Known, GivesUp, StandsAfter, KeptBlocks, LastParse, ParsedFrom,
           SettledFrom, OpensFence, OpenBlockValid, StartsFromScratch, InBounds, FirstTrue;
      ghost var closed := settled;
      KnownOfSettled();
      ghost var from;
      discarded, from := ParseTail();
      ReachedMeans(parse, source, old(blocks), closed, old(definitions), old(Standing(parses, intact, numbered)),
                   discarded, from, blocks, targets, outline, definitions, Standing(parses, intact, numbered));
      AfterClosing(parse, source, was, old(blocks), closed, basis, |was| - 1, old(definitions), blocks, definitions);
      StandsAlike(source, was, old(blocks), GivesUp(parse, source, basis, old(definitions)), discarded,
                  FirstTrue(basis.brackets), old(Standing(parses, intact, numbered)),
                      Standing(parses, intact, numbered), blocks, targets, outline);
      assert old(blocks)[..|was|] == old(blocks);
    }

    /** Uses the bytes from `start` on to extend the open block. When they close it and go on behind it, the tail
        is parsed, and the first block that says may have changed is dropped. */
    method AppendToFence(start: nat) returns (first: nat, line: nat, ghost honest: bool, ghost resumed: Option<nat>)
      requires SettledValid() && fence.Some? && start <= |source|
      requires TailLayout(blocks[settled.blocks..], source[..start], settled.sourceEnd)
      requires numbered ==> NumberedByLine(blocks, targets, outline, source)
      requires OpenBlockValid(fence.value, blocks, settled.blocks, |targets|, source[..start], clips)
      modifies this`blocks, this`targets, this`outline, this`settled, this`definitions, this`tailDefinitions,
               this`fence, this`parses, this`clips, this`intact, this`numbered
      ensures Valid()
      ensures first == old(fence).value.block == |old(blocks)| - 1 && old(fence).value.contentStart <= start
      ensures resumed == ResumesAt(old(fence).value, source, start)
      ensures resumed == None || resumed.value >= |source| ==>
                && honest && definitions == old(definitions)
                && Standing(parses, intact, numbered) == old(Standing(parses, intact, numbered))
                && |blocks| == |old(blocks)| && Frontier() >= first
      ensures resumed.Some? && resumed.value < |source| ==>
                && SpansWithin(old(settled).definitions, |source|) && SpansWithin(old(tailDefinitions), |source|)
                && var basis := ClosedSettled(old(settled), old(blocks), source, old(tailDefinitions), first,
                                              resumed.value);
                   && Reparsed(parse, source, old(blocks), Some(basis), old(definitions), first, blocks, definitions,
                               settled, fence.Some?)
                   && var gives := GivesUp(parse, source, basis, old(definitions));
                      && (if gives then FirstTrue(basis.brackets) else first) <= Frontier() && (honest <==> !gives)
                      && (gives ==> FirstTrue(basis.brackets) < first)
                      && StandsAfter(source, old(blocks), gives, FirstTrue(basis.brackets),
                                     old(Standing(parses, intact, numbered)), Standing(parses, intact, numbered),
                                         blocks, targets, outline)
      ensures honest ==>
                && SamePrefix(old(blocks), blocks, first, line) && first < |blocks|
                && ExtendedBlock(old(fence).value, old(blocks)[first], blocks[first], source, start, old(clips), fence,
                                 clips, resumed)
    {
      hide *;
      first := fence.value.block;
      honest := true;
      OpenIsLast(fence.value, blocks, settled.blocks, |targets|, source[..start], clips);
      KnownOfSettled();
      var resume;
      resume, line := ExtendFence(start);
      resumed := resume;
      if resume.None? {
        ValidWhen();
        FrontierInBounds();
      }
      if resume.Some? {
        ghost var extended, next := blocks, clips;
        OnlyLastExtended(old(blocks), blocks, line, old(fence).value, source, start, old(clips), fence, clips, resume);
        SettleClosed(resume.value, old(blocks));
        fence := None;
        ValidWhen();
        FrontierInBounds();
        if resume.value < |source| {
          ghost var basis := ClosedSettled(old(settled), old(blocks), source, old(tailDefinitions), first,
                                           resume.value);
          var discarded := ParseBehindFence(old(blocks), basis);
          honest := discarded > first;
          if honest {
            SamePrefixKept(old(blocks), extended, blocks, first, line);
            ClosedBlockStays(old(fence).value, old(blocks)[first], blocks[first], source, start, old(clips), None,
                             next, resume, fence, clips);
          }
        }
      }
    }

    /** Appends a chunk. Returns the first block and line that may have changed. */
    method Append(chunk: Source) returns (first: nat, line: nat, ghost honest: bool, ghost resumed: Option<nat>)
      requires Valid()
      modifies this, index
      ensures Valid() && index == old(index) && source == old(source) + chunk
      // What is parsed, how often, and what the document is then.
      ensures old(Basis(chunk)) == None ==>
              parses == old(parses) && definitions == old(definitions) && |blocks| == |old(blocks)|
      ensures old(Basis(chunk)).Some? ==>
                && parses == old(parses) + (if old(ParsesTwice(chunk)) then 2 else 1)
                && Reparsed(parse, source, old(blocks), old(Basis(chunk)), old(definitions), old(FirstChange(chunk)),
                            blocks, definitions, settled, fence.Some?)
      // The report is right unless a fence was open and settled blocks are given up on.
      ensures honest <==> old(fence) == None || !old(ParsesTwice(chunk))
      ensures honest ==>
              first == old(FirstChange(chunk)) && SamePrefix(old(blocks), blocks, first, line)
              && first <= |old(blocks)| && first <= |blocks|
      ensures old(fence) == None ==> line == 0 && first <= old(settled.blocks)
      ensures old(fence).Some? ==>
                && old(fence).value.contentStart <= |old(source)|
                && first == old(fence).value.block == |old(blocks)| - 1
                && resumed == ResumesAt(old(fence).value, source, |old(source)|)
                && (honest ==>
                      && first < |blocks|
                      && ExtendedBlock(old(fence).value, old(blocks)[first], blocks[first], source, |old(source)|,
                                       old(clips), fence, clips, resumed))
      ensures !honest ==> old(FirstChange(chunk)) < first
      ensures old(FirstChange(chunk)) <= Frontier() <= |blocks|
      // The settled blocks keep their place unless giving up on them reaches into one that stays.
      ensures intact <==>
              old(intact)
              && (old(ParsesTwice(chunk)) ==> OnOwnLine(source, old(blocks), old(FirstChange(chunk))))
      // Ids stay positions of targets unless giving up goes back behind the start of a node that stays; then an id
      // is given twice.
      ensures numbered <==>
              old(numbered)
              && (old(ParsesTwice(chunk)) ==> StaysBefore(source, old(blocks), old(FirstChange(chunk))))
      ensures old(numbered) ==> (Numbering(blocks, targets, outline) <==> numbered)
      ensures old(numbered) && !numbered && Nodes(blocks[old(FirstChange(chunk))..]) != [] ==> SharesId(blocks)
    {
      hide Numbering, NodesOf, LineStart, ParserContract, Nodes, SettledLayout, BracketsMatch, DefinitionsMatch,
           TailLayout, OpenBlockValid, ExtendedBlock, SamePrefix, LineIndex.Indexes, Resumable, InBounds, Known,
           TailParsed, GivesUp, ResumesAt, ClosedSettled, OnOwnLine, StaysBefore, SettledNumbered, InLines, NodesAscend,
           SharesId, SettledFrom, ParsedFrom, OpensFence;
      var start := |source|;
      ghost var before, basis, change := source, Basis(chunk), FirstChange(chunk);
      GrownIsKnown(chunk);
      GrownSettled(blocks, targets, outline, settled, source, chunk, tailDefinitions, intact, numbered);
      source := source + chunk;
      assert source[..start] == before;
      index.Extend(source, start);
      honest, resumed := true, None;
      if fence.Some? {
        first, line, honest, resumed := AppendToFence(start);
        FrontierInBounds();
        if basis.Some? {
          SameReparsed(parse, source, old(blocks), basis.value, old(definitions), first, change, blocks, definitions,
                       settled, fence.Some?);
        }
        return;
      }
      line := 0;
      ghost var from;
      first, from := ParseTail();
      ReachedMeans(parse, source, old(blocks), old(settled), old(definitions), old(Standing(parses, intact, numbered)),
                   first, from, blocks, targets, outline, definitions, Standing(parses, intact, numbered));
      SameParsed(parse, source, old(blocks), old(settled), old(definitions), old(settled).blocks, change, blocks,
                 definitions);
      WholePrefix(old(blocks), blocks, first);
      FrontierInBounds();
    }

    lemma TrustsParser()
      requires Valid()
      ensures ParserContract(parse)
    {
      hide ParserContract;
    }

    /** Back to the empty document; only the parse count is kept. */
    method Clear()
      requires Valid()
      modifies this
      ensures Valid() && fresh(index) && source == [] && blocks == [] && settled == UNSETTLED && definitions == map[]
              && tailDefinitions == []
      ensures fence == None && intact && numbered && parses == old(parses)
    {
      hide *;
      TrustsParser();
      var empty := new LineIndex([]);
      source, blocks, targets, outline, index := [], [], [], [], empty;
      settled, definitions, tailDefinitions, fence, clips := UNSETTLED, map[], [], None, [];
      intact, numbered := true, true;
      EmptyIsValid();
    }

    /** Starts over with `text`: one parse of all of it. */
    method Replace(text: Source)
      requires Valid()
      modifies this
      ensures Valid() && fresh(index) && source == text && intact && numbered && parses == old(parses) + 1
      ensures TailIs(blocks, 0, parse(text, 0, []).blocks) && definitions == parse(text, 0, []).definitions
    {
      hide IncrementalDocument.Valid, ParserContract, SamePrefix, ExtendedBlock, TailIs;
      Clear();
      var first, line;
      ghost var honest, resumed;
      first, line, honest, resumed := Append(text);
      assert [] + text == text;
    }
  }

  /** Two versions of the document agree before block `first`, and on the first `line` lines of that
      block when it is a code block. */
  ghost predicate SamePrefix(a: seq<Block>, b: seq<Block>, first: nat, line: nat) {
    && first <= |a| && first <= |b| && a[..first] == b[..first]
    && (line > 0 ==>
          && first < |a| && first < |b| && a[first].kind.Code? && b[first].kind.Code?
          && SameLines(b[first].kind.code.body, a[first].kind.code.body, line))
  }

  lemma WholePrefix(a: seq<Block>, b: seq<Block>, first: nat)
    requires first <= |a| && first <= |b| && a[..first] == b[..first]
    ensures SamePrefix(a, b, first, 0)
  {
  }

  /** A later change beyond block `first` does not spoil what was said about it. */
  lemma SamePrefixKept(a: seq<Block>, b: seq<Block>, c: seq<Block>, first: nat, line: nat)
    requires SamePrefix(a, b, first, line) && first + 1 <= |b| && first + 1 <= |c| && b[..first + 1] == c[..first + 1]
    ensures SamePrefix(a, c, first, line) && b[first] == c[first]
  {
    assert b[..first] == b[..first + 1][..first] == c[..first + 1][..first] == c[..first];
    assert b[first] == b[..first + 1][first] == c[..first + 1][first] == c[first];
  }

  // ---- blocks ready to be looked at ----------------------------------------

  ghost predicate AllReady(blocks: seq<Block>, source: Source) {
    forall i :: 0 <= i < |blocks| ==>
      && blocks[i].source.bytes.start <= blocks[i].source.bytes.end <= |source|
      && ReadyFence(blocks[i], source)
  }

  lemma ReadyAt(blocks: seq<Block>, source: Source, i: nat)
    requires AllReady(blocks, source) && i < |blocks|
    ensures blocks[i].source.bytes.start <= blocks[i].source.bytes.end <= |source| && ReadyFence(blocks[i], source)
  {
    hide ReadyFence;
  }

  lemma ReadyRest(blocks: seq<Block>, n: nat, source: Source)
    requires n < |blocks| && AllReady(blocks[n..], source)
    ensures AllReady(blocks[n + 1..], source)
  {
    hide ReadyFence;
    assert blocks[n + 1..] == blocks[n..][1..];
  }

  lemma AllBecomeReady(parsed: seq<Block>, done: seq<Block>, source: Source, end: nat)
    requires TailLayout(parsed, source, end) && |done| == |parsed|
    requires forall i :: 0 <= i < |parsed| ==> FreshFence(parsed[i], source) && SameBlock(parsed[i], done[i])
    ensures AllReady(done, source)
  {
    hide NodesOf, LineStart, SameBlock, FreshFence, ReadyFence;
    forall i | 0 <= i < |done|
      ensures done[i].source.bytes.start <= done[i].source.bytes.end <= |source| && ReadyFence(done[i], source)
    {
      assert parsed[i].source.bytes.start < parsed[i].source.bytes.end <= |source|;
      FreshBecomesReady(parsed[i], done[i], source);
    }
  }

  /** The target list ends with this code block's lines. */
  ghost predicate HasLastTargets(block: Block, targets: nat) {
    block.kind.Code? && block.target.Some? ==> block.target.value + 1 + |block.kind.code.body.lines| == targets
  }

  lemma LastTargets(parsed: seq<Block>, done: seq<Block>, next: nat)
    requires AssignedFrom(parsed, done, next)
    ensures done != [] ==> HasLastTargets(done[|done| - 1], next + |Nodes(parsed)|)
  {
    hide SameSources, SameBlock, Nodes, NodesOf, Numbered;
    if done != [] {
      var k := |done| - 1;
      assert done == done[..k] + [done[k]];
      NodesPush(done[..k], done[k]);
      assert SameBlock(parsed[k], done[k]);
      if done[k].kind.Code? {
        LastIsNumbered(Nodes(done[..k]), done[k], Nodes(parsed), next);
        SameTarget(parsed[k], done[k]);
      }
    }
  }

  lemma LastIsNumbered(before: seq<Node>, block: Block, nodes: seq<Node>, next: nat)
    requires before + NodesOf(block) == Numbered(nodes, next) && block.kind.Code?
    ensures block.kind.code.target == Some(next + |before|)
    ensures |before| + 1 + |block.kind.code.body.lines| == |nodes|
  {
    CodeNodeFirst(block);
    assert Numbered(nodes, next)[|before|] == NodesOf(block)[0];
  }

  lemma SameTarget(a: Block, b: Block)
    requires SameBlock(a, b) && b.kind.Code?
    ensures b.target == b.kind.code.target
  {
  }

  lemma BoundsJoin(blocks: seq<Block>, n: nat, done: seq<Block>, source: Source, end: nat)
    requires InBounds(blocks, source) && n <= |blocks| && TailLayout(done, source, end)
    ensures InBounds(blocks[..n] + done, source)
  {
    hide NodesWithin;
  }

  /** Too few targets are not those of the blocks. */
  lemma ShortIsNot(blocks: seq<Block>, targets: seq<Target>, outline: seq<OutlineEntry>)
    ensures Short(blocks, |targets|) ==> !Numbering(blocks, targets, outline)
  {
    hide Nodes;
    if Short(blocks, |targets|) {
      FewTargets(blocks, targets);
    }
  }

  /** Freshly parsed blocks behind settled ones whose nodes start before the settled end. */
  lemma InstalledByLine(kept: seq<Block>, done: seq<Block>, source: Source, end: nat)
    requires StartBefore(Nodes(kept), end) && NodesAscend(Nodes(kept), source) && end <= |source|
    requires TailLayout(done, source, end)
    ensures NodesAscend(Nodes(kept + done), source)
  {
    hide Nodes, NodesAscend, LineStart, TailLayout, StartBefore, StartFrom;
    NodesConcat(kept, done);
    if done == [] {
      NoNodes();
      assert kept + done == kept;
    } else {
      TailAscends(done, source, end);
      TailNodesFrom(done, source, end);
      StartAt(done, source, end);
      LineStartMonotone(source, end, done[0].source.bytes.start);
      FromEarlier(Nodes(done), LineStart(source, done[0].source.bytes.start), LineStart(source, end));
      AscendConcat(Nodes(kept), Nodes(done), source, end);
    }
  }

  // ---- settling -------------------------------------------------------------

  /** What follows block `at` starts on a line of its own that is complete. */
  ghost predicate Separates(blocks: seq<Block>, source: Source, at: nat)
    requires at + 1 < |blocks|
  {
    var start := blocks[at + 1].source.bytes.start;
    start <= |source| && Terminated(source, start) && blocks[at].source.bytes.end <= LineStart(source, start)
  }

  /** Settling began behind block `first`, at `start`, and went on as long as a block had a boundary. */
  ghost predicate SettledFrom(blocks: seq<Block>, source: Source, settled: Settled, first: nat, start: nat) {
    && first <= settled.blocks <= |blocks|
    && (settled.blocks == first ==> settled.sourceEnd == start)
    && (settled.blocks == |blocks| > first ==> LastBlockSettles(blocks[|blocks| - 1], source, Some(settled.sourceEnd)))
    && (settled.blocks + 1 == |blocks| ==> LastBlockSettles(blocks[settled.blocks], source, None))
    && (settled.blocks + 1 < |blocks| ==> !Separates(blocks, source, settled.blocks))
    && forall i :: first <= i < settled.blocks && i + 1 < |blocks| ==> Separates(blocks, source, i)
  }

  lemma LayoutAt(blocks: seq<Block>, at: nat, source: Source, end: nat)
    requires at < |blocks| && TailLayout(blocks[at..], source, end)
    ensures blocks[at].source.bytes.start < blocks[at].source.bytes.end <= |source|
    ensures blocks[at].source.bytes.end < |source| || !blocks[at].kind.Code? ==> NodesBeforeEnd(blocks[at])
    ensures at + 1 < |blocks| ==>
              && blocks[at + 1].source.bytes.start < blocks[at + 1].source.bytes.end <= |source|
              && blocks[at].source.bytes.end <= blocks[at + 1].source.bytes.start && NodesBeforeEnd(blocks[at])
  {
    hide NodesFromLine, NodesBeforeEnd, InOrder;
    var tail := blocks[at..];
    assert tail[0] == blocks[at] && NodesWithin(tail[0], source);
    OrderAt(tail, source, end, 0);
    if at + 1 < |blocks| {
      assert tail[1] == blocks[at + 1];
      OrderAt(tail, source, end, 1);
    }
  }

  lemma LayoutStep(blocks: seq<Block>, n: nat, source: Source, end: nat, boundary: nat, intact: bool, numbered: bool)
    requires n < |blocks| && TailLayout(blocks[n..], source, end)
    requires blocks[n].source.bytes.end <= boundary <= |source| && NodesBeforeEnd(blocks[n])
    requires Apart(blocks[n + 1..], source, boundary) && InLines(blocks[..n], source, end)
    requires intact ==> SettledLayout(blocks[..n], source, end)
    requires numbered ==> StartBefore(Nodes(blocks[..n]), end)
    ensures TailLayout(blocks[n + 1..], source, boundary) && end <= boundary
    ensures InLines(blocks[..n + 1], source, boundary)
    ensures intact ==> SettledLayout(blocks[..n + 1], source, boundary)
    ensures numbered ==> StartBefore(Nodes(blocks[..n + 1]), boundary)
  {
    hide InOrder, NodesBeforeEnd, NodesFromLine, SettledLayout, TailLayout, LineStart, InLines, StartBefore, Nodes,
         NodesOf;
    var tail := blocks[n..];
    assert tail[0] == blocks[n] && tail[1..] == blocks[n + 1..];
    assert |tail| > 1 ==> blocks[n + 1..][0] == tail[1];
    TailShrinks(tail, source, end, boundary);
    StartAt(tail, source, end);
    assert blocks[..n + 1] == blocks[..n] + [tail[0]];
    InLinesGrows(blocks[..n], tail[0], source, end, boundary);
    if intact {
      SettledGrows(blocks[..n], tail[0], tail, source, end, boundary);
    }
    if numbered {
      NodesPush(blocks[..n], tail[0]);
      StartBeforeLater(Nodes(blocks[..n]), tail[0], end, boundary);
    }
  }

  lemma StartBeforeLater(nodes: seq<Node>, block: Block, end: nat, boundary: nat)
    requires StartBefore(nodes, end) && NodesBeforeEnd(block) && end <= boundary && block.source.bytes.end <= boundary
    ensures StartBefore(nodes + NodesOf(block), boundary)
  {
    hide NodesOf;
  }

  lemma BlockBounds(blocks: seq<Block>, i: nat, source: Source)
    requires InBounds(blocks, source) && i < |blocks|
    ensures blocks[i].source.bytes.start <= |source|
    ensures BackTo(source, blocks, i)
         == AttachedAt(source, blocks[i].source.bytes.start, if i == 0 then 0 else blocks[i - 1].source.bytes.end)
  {
    hide AttachedAt;
  }

  lemma FewerBrackets(brackets: seq<bool>, blocks: seq<Block>, n: nat, b: nat, source: Source)
    requires b <= n <= |blocks| && BracketsMatch(brackets, blocks[..n], source)
    ensures b <= |brackets| && BracketsMatch(brackets[..b], blocks[..b], source)
  {
    hide HasBracket;
    assert forall i :: 0 <= i < b ==> blocks[..n][i] == blocks[..b][i];
  }

  /** Going back to block `b`: what stays is still in order before the new end exactly when the block starts on a line
      of its own, and then its nodes start before it. */
  lemma Retreats(blocks: seq<Block>, n: nat, source: Source, end: nat, b: nat, intact: bool)
    requires b < n <= |blocks| && InBounds(blocks, source)
    requires TailLayout(blocks[n..], source, end) && InLines(blocks[..n], source, end)
    requires intact ==> SettledLayout(blocks[..n], source, end)
    ensures var back := BackTo(source, blocks, b);
            && LineStart(source, back) == back && InLines(blocks[..b], source, back)
            && StartFrom(Nodes(blocks[b..]), back)
            && (intact ==> (SettledLayout(blocks[..b], source, back) <==> OnOwnLine(source, blocks, b)))
            && (intact && OnOwnLine(source, blocks, b) ==> StaysBefore(source, blocks, b))
            && (StaysBefore(source, blocks, b) <==> StartBefore(Nodes(blocks[..b]), back))
  {
    hide NodesOf, LineStart, SettledLayout, TailLayout, AttachedFrom, AttachedAt, InLines, Nodes, StartFrom,
         StartBefore;
    var back := BackTo(source, blocks, b);
    AttachedKeepsGapIff(source, blocks[b].source.bytes.start, GapBefore(blocks, b));
    BackIsLineStart(source, blocks, b);
    assert blocks[..n][..b] == blocks[..b];
    InLinesRetreat(blocks[..n], source, end, b, back);
    RestFrom(blocks, n, source, end, b, back);
    if intact {
      LayoutRetreatsIff(blocks, n, source, end, b, back);
      if OnOwnLine(source, blocks, b) {
        SettledNodesBefore(blocks[..b], source, back);
      }
    }
  }

  lemma NumberedByCounts(stays: bool, blocks: seq<Block>, targets: seq<Target>, outline: seq<OutlineEntry>,
                         settled: Settled, source: Source)
    requires settled.blocks <= |blocks|
    ensures stays && StartBefore(Nodes(blocks[..settled.blocks]), settled.sourceEnd)
            && NodesAscend(Nodes(blocks[..settled.blocks]), source)
            && CountsIff(stays, blocks[..settled.blocks], targets, outline, settled.targets, settled.outline) ==>
            SettledNumbered(blocks, targets, outline, settled, source)
  {
    hide Numbering, StartBefore, Nodes, NodesAscend, Short, Headings;
  }

  lemma LineStartResumes(source: Source, start: nat)
    requires start <= |source| && (start == 0 || source[start - 1] == LF)
    ensures Resumable(source, start)
  {
    hide BlankLine;
  }

  lemma ClosedCodeResumes(block: Block, source: Source)
    requires block.source.bytes.start <= block.source.bytes.end < |source| && ReadyFence(block, source)
    requires block.kind.Code? && block.kind.code.info.Some?
    ensures block.source.bytes.end < AfterEol(source, block.source.bytes.end) <= |source|
    ensures Resumable(source, AfterEol(source, block.source.bytes.end))
  {
    hide ClosedOrScannable, ContentRange, FencedBody, AimLines;
  }

  lemma StartAt(tail: seq<Block>, source: Source, end: nat)
    requires TailLayout(tail, source, end) && tail != []
    ensures end <= tail[0].source.bytes.start < tail[0].source.bytes.end <= |source| && NodesFromLine(tail[0], source)
  {
    hide NodesFromLine, NodesBeforeEnd, InOrder;
    OrderAt(tail, source, end, 0);
    assert NodesWithin(tail[0], source);
  }

  lemma NothingSettled()
    ensures SettledLayout([], [], 0) && TailLayout([], [], 0) && Numbering([], [], []) && InLines([], [], 0)
    ensures StartBefore(Nodes([]), 0) && NodesAscend(Nodes([]), [])
    ensures BracketsMatch([], [], []) && DefinitionsMatch(UNSETTLED, []) && InBounds([], []) && Resumable([], 0)
  {
    NoNodes();
  }

  lemma ParsedWell(parse: Parser, source: Source, settled: Settled, parsed: Parsed)
    requires ParserContract(parse) && Resumable(source, settled.sourceEnd) && DefinitionsMatch(settled, source)
    requires parsed == parse(source, settled.sourceEnd, settled.prefix)
    ensures TailLayout(parsed.blocks, source, settled.sourceEnd)
    ensures forall i :: 0 <= i < |parsed.blocks| ==> FreshFence(parsed.blocks[i], source)
    ensures SpansWithin(parsed.tailDefinitions, |source|)
  {
    hide TailLayout, FreshFence, Resumable;
    assert WellParsed(parse(source, settled.sourceEnd, PrefixOf(settled.definitions, source)), source,
                      settled.sourceEnd);
  }

  /** What a chunk leaves that makes the tail behind `basis` be parsed: the blocks, what is settled of them, and
      whether the last one is an open fence. */
  ghost predicate Reparsed(parse: Parser, source: Source, was: seq<Block>, basis: Option<Settled>,
                           definitions: map<Source, Definition>, same: nat, now: seq<Block>,
                               nowDefined: map<Source, Definition>, settled: Settled, open: bool)
  {
    && basis.Some? && Known(basis.value, was, source)
    && TailParsed(parse, source, was, basis.value, definitions, same, now, nowDefined)
    && SettledFrom(now, source, settled, KeptBlocks(parse, source, basis.value, definitions),
                   ParsedFrom(parse, source, was, basis.value, definitions))
    && (open <==> settled.blocks < |now| && OpensFence(now[|now| - 1], source))
  }

  lemma SameReparsed(parse: Parser, source: Source, was: seq<Block>, basis: Settled,
                     definitions: map<Source, Definition>, same: nat, fewer: nat, now: seq<Block>,
                         nowDefined: map<Source, Definition>, settled: Settled, open: bool)
    requires Reparsed(parse, source, was, Some(basis), definitions, same, now, nowDefined, settled, open)
             && fewer <= same
    ensures Reparsed(parse, source, was, Some(basis), definitions, fewer, now, nowDefined, settled, open)
    ensures var n := Min(KeptBlocks(parse, source, basis, definitions), fewer);
            n <= |was| && n <= |now| && now[..n] == was[..n]
  {
    hide Known, TailParsed, KeptBlocks, ParsedFrom, SettledFrom, OpensFence;
    SameParsed(parse, source, was, basis, definitions, same, fewer, now, nowDefined);
  }

  // ---- the open fence --------------------------------------------------------

  /** A fenced block that reaches the end of the source below a complete opening line. */
  ghost predicate OpensFence(block: Block, source: Source) {
    && block.kind.Code? && block.kind.code.info.Some?
    && block.source.bytes.end == |source| && Terminated(source, block.source.bytes.start)
  }

  /** The open fence is the last block, a code block whose targets are the last ones, and its lines are tracked. */
  ghost predicate OpenBlockValid(fence: OpenFence, blocks: seq<Block>, settled: nat, targets: nat, source: Source,
                                 clips: seq<Clip>)
  {
    && settled <= fence.block == |blocks| - 1
    && blocks[fence.block].kind.Code?
    && var block, code := blocks[fence.block], blocks[fence.block].kind.code;
       && block.source.bytes == Range(fence.start, |source|) && block.source == code.source
       && code.target == block.target && code.target.Some? && HasLastTargets(block, targets)
       && Tracks(fence, source, clips, code.target.value, code.body)
  }

  lemma OpenIsLast(fence: OpenFence, blocks: seq<Block>, settled: nat, targets: nat, source: Source, clips: seq<Clip>)
    requires OpenBlockValid(fence, blocks, settled, targets, source, clips)
    ensures settled <= fence.block == |blocks| - 1 && fence.start < fence.contentStart <= |source|
  {
  }

  lemma TerminatedOpening(source: Source, start: nat)
    requires start <= |source| && Terminated(source, start)
    ensures start + FirstLF(source[start..]) < |source|
  {
    var i :| start <= i < |source| && source[i] == LF;
    PrefixWithout(source[start..], FirstLF(source[start..]), LF);
    assert source[start..][i - start] == LF;
  }

  lemma AfterLineStart(source: Source, lineStart: nat, openingEnd: nat)
    requires lineStart <= |source| && 0 < openingEnd <= |source| && source[openingEnd - 1] == LF
    requires LF !in source[lineStart..|source|] && (lineStart == 0 || source[lineStart - 1] == LF)
    ensures var k := Max(lineStart, openingEnd);
            LF !in source[k..] && (k == openingEnd || source[k - 1] == LF)
  {
    SliceWithout(source, lineStart, |source|, LF);
  }

  /** At detection the lines of the open block are the from-scratch ones. */
  ghost predicate StartsFromScratch(fence: OpenFence, blocks: seq<Block>, source: Source, clips: seq<Clip>) {
    && fence.start < fence.contentStart <= |source| && clips == InitialClips(fence, source)
    && fence.block == |blocks| - 1 && blocks[fence.block].kind.Code? && blocks[fence.block].target.Some?
    && blocks[fence.block].kind.code.body
        == ScratchBody(fence.start, |source|, source, blocks[fence.block].target.value)
  }

  /** A detected fence starts out tracked. */
  lemma OpenedBlockValid(fence: OpenFence, blocks: seq<Block>, settled: nat, targets: nat, source: Source)
    requires settled <= fence.block == |blocks| - 1 && blocks[fence.block].kind.Code? && Scanned(fence, source)
    requires blocks[fence.block].source.bytes == Range(fence.start, |source|)
    requires blocks[fence.block].kind.code.info.Some? && ReadyFence(blocks[fence.block], source)
    requires blocks[fence.block].target.Some? && HasLastTargets(blocks[fence.block], targets)
    requires blocks[fence.block].kind.code.body
          == ScratchBody(fence.start, |source|, source, blocks[fence.block].target.value)
    ensures OpenBlockValid(fence, blocks, settled, targets, source, InitialClips(fence, source))
    ensures StartsFromScratch(fence, blocks, source, InitialClips(fence, source))
  {
    hide ScratchBody, Opened, ClosedByCR, SplitLF, Tracks, FencedBody, ContentRange, ClosedOrScannable;
    RebuiltTracks(fence, source, InitialClips(fence, source), blocks[fence.block].target.value);
  }

  /** The registers computed at detection are those of a scan of the whole content. */
  lemma DetectedIsScanned(fence: OpenFence, source: Source, block: Block)
    requires block.source.bytes == Range(fence.start, |source|) && fence.start < |source|
    requires block.kind.Code? && block.kind.code.info.Some? && ReadyFence(block, source)
    requires fence.start + FirstLF(source[fence.start..]) < |source|
    requires fence.contentStart == fence.start + FirstLF(source[fence.start..]) + 1
    requires (fence.marker, fence.count) == FenceMarker(source[fence.start..fence.contentStart])
    requires fence.contentStart <= fence.lineStart <= |source| && LF !in source[fence.lineStart..]
    requires fence.lineStart == fence.contentStart || source[fence.lineStart - 1] == LF
    requires fence.complete == CountLF(source[fence.contentStart..])
    requires fence.state == ScanLine(source[fence.lineStart..], fence.marker, fence.count)
    ensures Scanned(fence, source)
    ensures block.kind.code.body == ScratchBody(fence.start, |source|, source, block.target.value)
  {
    hide SplitLF, FenceMarker, ClosedByCR, FencedBody, ContentRange, AimLines, EndsItsLine, CountLF, ScanLine;
    var cs := fence.contentStart;
    var content := source[cs..];
    SplitCount(content);
    assert content[fence.lineStart - cs..] == source[fence.lineStart..];
    assert fence.lineStart > cs ==> content[fence.lineStart - cs - 1] == source[fence.lineStart - 1];
    LastPieceIs(content, fence.lineStart - cs);
    SplitLast(content);
    var opening := FirstLF(source[fence.start..]);
    assert source[fence.start..][..opening] == source[fence.start..cs - 1];
  }

  lemma SamePrefixLast(before: seq<Block>, previous: Block, block: Block, body: Body, base: nat, from: nat)
    requires previous.kind.Code? && block.kind.Code?
    requires SameLines(body, previous.kind.code.body, from) && block.kind.code.body == AimLines(body, base, from)
    ensures SamePrefix(before + [previous], before + [block], |before|, from)
  {
    var a, b := before + [previous], before + [block];
    assert a[..|before|] == b[..|before|];
    var aimed := AimLines(body, base, from);
    assert aimed.lines[..from] == body.lines[..from];
    forall i | 0 <= i < from
      ensures aimed.LineText(aimed.lines[i]) == previous.kind.code.body.LineText(previous.kind.code.body.lines[i])
    {
      assert aimed.lines[i] == body.lines[i];
    }
  }

  /** What a chunk does to the open block. Its ranges are always the from-scratch ones; so are its
      lines when the fence closes, and otherwise they follow the clips. */
  ghost predicate ExtendedBlock(opening: OpenFence, previous: Block, block: Block, source: Source, start: nat,
                                clips: seq<Clip>, fence: Option<OpenFence>, next: seq<Clip>, resume: Option<nat>)
  {
    && previous.kind.Code? && block.kind.Code? && previous.target.Some? && block.target == previous.target
    && opening.contentStart <= start <= |source| && opening.start < opening.contentStart
    && var end := block.source.bytes.end;
       && start <= end <= |source| && block.source == SourceRangeOf(Range(opening.start, end), source)
       && block.kind.code == previous.kind.code.(source := block.source, content := block.kind.code.content,
                                                 body := block.kind.code.body)
       && block.kind.code.content == SourceRangeOf(ContentRange(Range(opening.start, end), source), source)
       && (forall p :: start <= p < end ==> !IsClosingEnd(opening, source, p))
       && if resume.Some? then
            && end < |source| && IsClosingEnd(opening, source, end)
            && block.kind.code.body == ScratchBody(opening.start, end, source, block.target.value)
          else
            && fence.Some? && end == |source| && opening.contentStart == fence.value.contentStart
            && |clips| <= fence.value.complete == |Split(fence.value, source)| - 1
            && next == NextClips(opening, source[..start], clips, fence.value, source)
            && block.kind.code.body == TrackedBody(fence.value, source, next, block.target.value)
  }

  lemma ExtendedFacts(opening: OpenFence, source: Source, start: nat, previous: Body, clips: seq<Clip>, base: nat,
                      fence: OpenFence, closed: bool, end: nat, done: Body, firstChanged: nat, next: seq<Clip>)
    requires LinesExtended(opening, source, start, previous, clips, base, fence, closed, end, done, firstChanged, next)
    ensures opening.contentStart == fence.contentStart <= start <= end <= |source| && opening.start <= end
    ensures SameLines(done, previous, firstChanged) && firstChanged <= |done.lines| && firstChanged <= |previous.lines|
    ensures closed ==> AimLines(done, base, firstChanged) == ScratchBody(opening.start, end, source, base)
    ensures !closed ==>
              && |clips| <= fence.complete == |Split(fence, source)| - 1 == |next|
              && next == NextClips(opening, source[..start], clips, fence, source)
              && Tracks(fence, source, next, base, AimLines(done, base, firstChanged))
              && AimLines(done, base, firstChanged) == TrackedBody(fence, source, next, base)
  {
  }


  // ---- extending the last block ----------------------------------------------

  lemma ClosedIsResumable(fence: OpenFence, source: Source, end: nat)
    requires fence.contentStart <= end < |source| && IsClosingEnd(fence, source, end)
    ensures Resumable(source, AfterEol(source, end))
  {
  }

  lemma SyncedSize(code: CodeBlock, targets: seq<Target>, numbered: seq<Target>, base: nat, from: nat)
    requires from <= |code.body.lines| && base + 1 + from <= |targets|
    requires numbered == targets[base := targets[base].(source := code.source)][..base + 1 + from]
                         + TargetsOf(CodeNodes(code)[1 + from..], base + 1 + from)
    ensures |numbered| == base + 1 + |code.body.lines|
    ensures |AimLines(code.body, base, from).lines| == |code.body.lines|
  {
  }

  lemma TailExtended(before: seq<Block>, previous: Block, block: Block, n: nat, source: Source, start: nat, end: nat)
    requires n <= |before| && start <= |source| && TailLayout((before + [previous])[n..], source[..start], end)
    requires block.source.bytes.start == previous.source.bytes.start < block.source.bytes.end <= |source|
    requires NodesWithin(block, source)
    ensures TailLayout((before + [block])[n..], source, end)
  {
    hide TailLayout, NodesWithin;
    assert (before + [previous])[n..] == before[n..] + [previous] && (before + [block])[n..] == before[n..] + [block];
    assert source == source[..start] + source[start..];
    LayoutExtended(before[n..], previous, block, source[..start], source[start..], end);
  }

  lemma SettledStays(before: seq<Block>, previous: Block, block: Block, n: nat, source: Source)
    requires n <= |before| && InBounds(before + [previous], source)
    requires block.source.bytes.start < block.source.bytes.end <= |source|
    ensures (before + [block])[..n] == (before + [previous])[..n]
    ensures InBounds(before + [block], source)
  {
    forall i | 0 <= i < |before|
      ensures (before + [block])[i] == (before + [previous])[i]
    {
    }
  }

  lemma KeepsNumbering(before: seq<Block>, previous: Block, block: Block, code: CodeBlock, targets: seq<Target>,
                       outline: seq<OutlineEntry>, numbered: seq<Target>, from: nat, settled: Settled, source: Source)
    requires NumberedByLine(before + [previous], targets, outline, source) && NodesWithin(block, source)
    requires block.source.bytes.start == previous.source.bytes.start
    requires block.kind.Code? && block.kind.code.source == block.source
    requires previous.kind.Code? && previous.kind.code.source == previous.source
    requires SettledNumbered(before + [previous], targets, outline, settled, source) && settled.blocks <= |before|
    requires previous.kind.Code? && block.kind.Code? && SameLines(code.body, previous.kind.code.body, from)
    requires code.target == previous.kind.code.target && code.target.Some?
    requires var base := code.target.value;
             && block.kind.code == code.(body := AimLines(code.body, base, from))
             && base + 1 + from <= |targets|
             && numbered == targets[base := targets[base].(source := code.source)][..base + 1 + from]
                            + TargetsOf(CodeNodes(code)[1 + from..], base + 1 + from)
    ensures NumberedByLine(before + [block], numbered, outline, source)
    ensures SettledNumbered(before + [block], numbered, outline, settled, source)
  {
    hide Nodes, Headings, TargetsMatch, TargetsOf, CodeNodes, SameLines, AimLines, NodesAscend, StartBefore, NodesOf,
         LineStart, NodesBeforeEnd;
    var blocks := before + [previous];
    assert blocks[..|before|] == before && blocks[|before|] == previous;
    CodeTargetIsCount(blocks, targets, |before|);
    NumberingExtended(before, previous, block, code, targets, outline, numbered, from);
    NodesPush(before, previous);
    NodesPush(before, block);
    CodeStartsAt(previous);
    CodeStartsAt(block);
    AscendReplaced(Nodes(before), NodesOf(previous), NodesOf(block), source);
    assert blocks[..settled.blocks] == before[..settled.blocks] == (before + [block])[..settled.blocks];
    SettledTargetsKept(before, settled, targets, outline, numbered);
    NumberedDependsOnPrefix(blocks, targets, outline, settled, source, before + [block], numbered, outline);
  }

  lemma CodeStartsAt(block: Block)
    requires block.kind.Code?
    ensures NodesOf(block) != [] && NodesOf(block)[0].source == block.kind.code.source
  {
  }

  /** Nodes that ascend still do when the last of them are replaced by others that ascend from the same start. */
  lemma AscendReplaced(a: seq<Node>, was: seq<Node>, now: seq<Node>, source: Source)
    requires NodesAscend(a + was, source) && NodesAscend(now, source)
    requires was != [] && now != [] && was[0].source.bytes.start == now[0].source.bytes.start
    ensures NodesAscend(a + now, source)
  {
    hide LineStart;
    forall i, j | 0 <= i < |a| && 0 <= j < |now|
      ensures a[i].source.bytes.start <= |source|
      ensures LineStart(source, a[i].source.bytes.start) <= now[j].source.bytes.start
    {
      assert (a + was)[i] == a[i] && (a + was)[|a|] == was[0];
      var line := LineStart(source, a[i].source.bytes.start);
      LineStartShape(source, a[i].source.bytes.start);
      LineStartIs(source, line);
      LineStartMonotone(source, line, now[0].source.bytes.start);
    }
    forall i | 0 <= i < |a|
      ensures (a + now)[i] == (a + was)[i]
    {
    }
  }

  /** Cutting the target list back never reaches the settled targets. */
  lemma SettledTargetsKept(before: seq<Block>, settled: Settled, targets: seq<Target>, outline: seq<OutlineEntry>,
                           numbered: seq<Target>)
    requires settled.blocks <= |before| && settled.targets <= |targets| && settled.outline <= |outline|
    requires Numbering(before[..settled.blocks], targets[..settled.targets], outline[..settled.outline])
    requires |Nodes(before)| <= |targets| && |Nodes(before)| <= |numbered|
    requires numbered[..|Nodes(before)|] == targets[..|Nodes(before)|]
    ensures settled.targets <= |numbered| && numbered[..settled.targets] == targets[..settled.targets]
  {
    hide Nodes;
    assert before == before[..settled.blocks] + before[settled.blocks..];
    NodesConcat(before[..settled.blocks], before[settled.blocks..]);
    var k := |Nodes(before)|;
    assert numbered[..settled.targets] == numbered[..k][..settled.targets] == targets[..k][..settled.targets];
  }

  lemma KnownGrows(settled: Settled, blocks: seq<Block>, source: Source, more: Source, spans: seq<Range>)
    requires Known(settled, blocks, source) && SpansWithin(spans, |source|)
    ensures Known(settled, blocks, source + more) && SpansWithin(spans, |source + more|)
  {
  }

  lemma ClosedIsKnown(settled: Settled, blocks: seq<Block>, source: Source, spans: seq<Range>, fence: OpenFence,
                      start: nat)
    requires Known(settled, blocks, source) && SpansWithin(spans, |source|)
    requires settled.blocks <= fence.block == |blocks| - 1 && fence.contentStart <= start
    ensures match ResumesAt(fence, source, start)
            case None => true
            case Some(resume) => Known(ClosedSettled(settled, blocks, source, spans, fence.block, resume), blocks,
                                       source)
  {
    hide FirstClosingEnd;
    match ResumesAt(fence, source, start)
    case None =>
    case Some(resume) =>
      hide PrefixOf, HasBracket, BracketsMatch, SpansUpTo;
      SpansUpToWithin(spans, resume, |source|);
  }

  lemma OnlyLastExtended(was: seq<Block>, now: seq<Block>, line: nat, opening: OpenFence, source: Source, start: nat,
                         clips: seq<Clip>, fence: Option<OpenFence>, next: seq<Clip>, resume: Option<nat>)
    requires |was| == |now| > 0 && SamePrefix(was, now, |now| - 1, line)
    requires ExtendedBlock(opening, was[|now| - 1], now[|now| - 1], source, start, clips, fence, next, resume)
    ensures was[..|now| - 1] == now[..|now| - 1] && now[|now| - 1].kind.Code?
  {
    hide ContentRange, ScratchBody, TrackedBody, IsClosingEnd, NextClips, SameLines;
  }

  /** Once the fence is closed, what the document does next says nothing about the block. */
  lemma ClosedBlockStays(opening: OpenFence, previous: Block, block: Block, source: Source, start: nat,
                         clips: seq<Clip>, fence: Option<OpenFence>, next: seq<Clip>, resume: Option<nat>,
                             laterFence: Option<OpenFence>, later: seq<Clip>)
    requires ExtendedBlock(opening, previous, block, source, start, clips, fence, next, resume) && resume.Some?
    ensures ExtendedBlock(opening, previous, block, source, start, clips, laterFence, later, resume)
  {
    hide ContentRange, ScratchBody, TrackedBody, IsClosingEnd, NextClips, SameLines;
  }

  // ---- closing the last block ------------------------------------------------

  lemma TailEnds(blocks: seq<Block>, n: nat, source: Source, end: nat)
    requires n < |blocks| && TailLayout(blocks[n..], source, end)
    ensures end <= blocks[|blocks| - 1].source.bytes.end
  {
    hide InOrder, NodesWithin;
    var tail := blocks[n..];
    StartsAscend(tail, source, end, |tail| - 1);
    OrderAt(tail, source, end, |tail| - 1);
  }

  lemma NothingLeft(blocks: seq<Block>, source: Source, end: nat)
    ensures TailLayout(blocks[|blocks|..], source, end) && StartFrom(Nodes(blocks[|blocks|..]), end)
  {
    assert blocks[|blocks|..] == [];
  }

  /** Once the last block is closed, every block can be settled up to where parsing resumes. */
  lemma SettleWhole(blocks: seq<Block>, n: nat, source: Source, end: nat, resume: nat)
    requires n < |blocks| && SettledLayout(blocks[..n], source, end) && TailLayout(blocks[n..], source, end)
    requires NodesBeforeEnd(blocks[|blocks| - 1]) && blocks[|blocks| - 1].source.bytes.end <= resume <= |source|
    ensures SettledLayout(blocks[..|blocks|], source, resume)
  {
    hide NodesOf, LineStart, InOrder, NodesBeforeEnd, NodesFromLine;
    var last := |blocks| - 1;
    InOrderConcat(blocks[..n], blocks[n..], source, end);
    assert blocks == blocks[..n] + blocks[n..] && blocks[n..] == blocks[n..last] + [blocks[last]];
    EarlierNodesEnd(blocks[n..last], blocks[last], source, end);
    forall i | 0 <= i < |blocks|
      ensures NodesFromLine(blocks[i], source) && NodesBeforeEnd(blocks[i]) && blocks[i].source.bytes.end <= resume
    {
      EndsIncrease(blocks, source, i + 1, |blocks|);
      if i < n {
        assert blocks[..n][i] == blocks[i];
      } else {
        assert blocks[n..][i - n] == blocks[i] && NodesWithin(blocks[n..][i - n], source);
        assert i < last ==> blocks[n..last][i - n] == blocks[i];
      }
    }
    assert blocks[..|blocks|] == blocks;
  }

  lemma WholeInLines(blocks: seq<Block>, n: nat, source: Source, end: nat, resume: nat)
    requires n < |blocks| && InLines(blocks[..n], source, end) && TailLayout(blocks[n..], source, end)
    requires blocks[|blocks| - 1].source.bytes.end <= resume <= |source|
    ensures InLines(blocks[..|blocks|], source, resume)
  {
    hide InLines, TailLayout;
    var settled, tail := blocks[..n], blocks[n..];
    TailInLines(settled, tail, source, end, |tail|);
    assert settled + tail[..|tail|] == blocks == blocks[..|blocks|];
    InLinesLater(blocks, source, blocks[|blocks| - 1].source.bytes.end, resume);
  }

  lemma InLinesLater(blocks: seq<Block>, source: Source, end: nat, later: nat)
    requires InLines(blocks, source, end) && end <= later <= |source|
    ensures InLines(blocks, source, later)
  {
    hide LineStart, NodesFromLine;
    LineStartMonotone(source, end, later);
  }

  lemma {:induction false} TailInLines(settled: seq<Block>, tail: seq<Block>, source: Source, end: nat, k: nat)
    requires InLines(settled, source, end) && TailLayout(tail, source, end) && k <= |tail|
    ensures InLines(settled + tail[..k], source, EndBefore(tail, k, end))
  {
    hide InLines, InOrder, NodesFromLine, NodesBeforeEnd;
    if k == 0 {
      assert settled + tail[..0] == settled;
    } else {
      TailInLines(settled, tail, source, end, k - 1);
      OrderAt(tail, source, end, k - 1);
      assert NodesWithin(tail[k - 1], source);
      InLinesGrows(settled + tail[..k - 1], tail[k - 1], source, EndBefore(tail, k - 1, end),
                   tail[k - 1].source.bytes.end);
      assert settled + tail[..k - 1] + [tail[k - 1]] == settled + tail[..k];
    }
  }

  lemma NumberedStarts(blocks: seq<Block>, targets: seq<Target>, outline: seq<OutlineEntry>, settled: Settled,
                       source: Source)
    requires SettledNumbered(blocks, targets, outline, settled, source)
    ensures StartBefore(Nodes(blocks[..settled.blocks]), settled.sourceEnd)
  {
    hide Numbering, StartBefore, NodesAscend;
  }

  lemma WholeStartsBefore(blocks: seq<Block>, n: nat, source: Source, end: nat, resume: nat)
    requires n < |blocks| && StartBefore(Nodes(blocks[..n]), end) && TailLayout(blocks[n..], source, end)
    requires NodesBeforeEnd(blocks[|blocks| - 1]) && blocks[|blocks| - 1].source.bytes.end <= resume <= |source|
    ensures StartBefore(Nodes(blocks[..|blocks|]), resume)
  {
    hide NodesOf, Nodes, TailLayout, NodesBeforeEnd, StartBefore;
    var last := |blocks| - 1;
    TailEnds(blocks, n, source, end);
    assert blocks[n..] == blocks[n..last] + [blocks[last]] && blocks[..|blocks|] == blocks[..n] + blocks[n..];
    NodesBeforeLast(blocks[n..last], blocks[last], source, end);
    NodesPush(blocks[n..last], blocks[last]);
    NodesConcat(blocks[..n], blocks[n..]);
    LastStart(blocks[n..], source, end);
    JoinBefore(Nodes(blocks[..n]), Nodes(blocks[n..last]), blocks[last], end, resume);
  }

  lemma LastStart(tail: seq<Block>, source: Source, end: nat)
    requires TailLayout(tail, source, end) && tail != []
    ensures tail[|tail| - 1].source.bytes.start < tail[|tail| - 1].source.bytes.end
  {
    hide InOrder, NodesWithin;
    OrderAt(tail, source, end, |tail| - 1);
  }

  lemma JoinBefore(a: seq<Node>, b: seq<Node>, last: Block, end: nat, resume: nat)
    requires StartBefore(a, end) && StartBefore(b, last.source.bytes.start) && NodesBeforeEnd(last)
    requires end <= last.source.bytes.end <= resume && last.source.bytes.start < last.source.bytes.end
    ensures StartBefore(a + (b + NodesOf(last)), resume)
  {
    hide NodesOf;
  }

  /** What is settled after closing is what the chunk and the state before it say. */
  lemma ClosedIs(settled: Settled, closed: Settled, was: seq<Block>, blocks: seq<Block>, source: Source,
                 spans: seq<Range>, at: nat, resume: nat)
    requires |was| == |blocks| == at + 1 && was[..at] == blocks[..at] && blocks[at].kind.Code?
    requires SpansWithin(settled.definitions, |source|) && SpansWithin(spans, |source|)
    requires closed.blocks == at + 1 && closed.sourceEnd == resume
             && BracketsMatch(closed.brackets, blocks[..at + 1], source)
    requires closed.definitions == settled.definitions + SpansUpTo(spans, resume) && DefinitionsMatch(closed, source)
    ensures closed == ClosedSettled(settled, was, source, spans, at, resume).(targets := closed.targets,
            outline := closed.outline)
    ensures !closed.brackets[at]
  {
    var flags := FlagsOf(was[..at], source) + [false];
    forall i | 0 <= i <= at
      ensures closed.brackets[i] == flags[i]
    {
      assert i < at ==> blocks[i] == blocks[..at][i] == was[..at][i];
    }
    assert closed.brackets == flags;
  }

  /** Settled bookkeeping does not depend on what is appended. */
  lemma GrownSettled(blocks: seq<Block>, targets: seq<Target>, outline: seq<OutlineEntry>, settled: Settled,
                     source: Source, more: Source, spans: seq<Range>, intact: bool, numbered: bool)
    requires settled.blocks <= |blocks| && InBounds(blocks, source)
    requires BracketsMatch(settled.brackets, blocks[..settled.blocks], source)
    requires DefinitionsMatch(settled, source) && SpansWithin(spans, |source|) && Resumable(source, settled.sourceEnd)
    requires InLines(blocks[..settled.blocks], source, settled.sourceEnd)
    requires intact ==> SettledLayout(blocks[..settled.blocks], source, settled.sourceEnd)
    requires numbered ==>
               && SettledNumbered(blocks, targets, outline, settled, source)
               && NumberedByLine(blocks, targets, outline, source)
    ensures InBounds(blocks, source + more)
    ensures BracketsMatch(settled.brackets, blocks[..settled.blocks], source + more)
    ensures DefinitionsMatch(settled, source + more) && SpansWithin(spans, |source + more|)
    ensures Resumable(source + more, settled.sourceEnd)
    ensures InLines(blocks[..settled.blocks], source + more, settled.sourceEnd)
    ensures intact ==> SettledLayout(blocks[..settled.blocks], source + more, settled.sourceEnd)
    ensures numbered ==>
              && SettledNumbered(blocks, targets, outline, settled, source + more)
              && NumberedByLine(blocks, targets, outline, source + more)
  {
    hide NodesOf, LineStart, HasBracket, PrefixOf, Numbering, SettledLayout, Resumable, InLines, NodesAscend, Nodes,
         StartBefore;
    BracketsStable(settled.brackets, blocks[..settled.blocks], source, more);
    PrefixStable(settled.definitions, source, more);
    ResumableStable(source, more, settled.sourceEnd);
    InLinesStable(blocks[..settled.blocks], source, more, settled.sourceEnd);
    if intact {
      SettledLayoutStable(blocks[..settled.blocks], source, more, settled.sourceEnd);
    }
    if numbered {
      AscendStable(Nodes(blocks[..settled.blocks]), source, more);
      AscendStable(Nodes(blocks), source, more);
    }
  }

  lemma StandsAlike(source: Source, was: seq<Block>, extended: seq<Block>, gives: bool, discarded: nat, b: nat,
                    before: Standing, now: Standing, blocks: seq<Block>, targets: seq<Target>,
                        outline: seq<OutlineEntry>)
    requires StandsAfter(source, extended, gives, discarded, before, now, blocks, targets, outline)
    requires gives ==> && discarded == b < |was| && b < |extended|
                       && (OnOwnLine(source, was, b) <==> OnOwnLine(source, extended, b))
                       && (StaysBefore(source, was, b) <==> StaysBefore(source, extended, b))
    ensures StandsAfter(source, was, gives, b, before, now, blocks, targets, outline)
  {
    hide OnOwnLine, StaysBefore, Misnumbered;
  }

  /** The parse behind a closed fence, told in terms of the blocks before the chunk. */
  lemma AfterClosing(parse: Parser, source: Source, was: seq<Block>, extended: seq<Block>, closed: Settled,
                     settled: Settled, at: nat, definitions: map<Source, Definition>, now: seq<Block>,
                         nowDefined: map<Source, Definition>)
    requires |was| == |extended| == at + 1 && was[..at] == extended[..at] && extended[at].kind.Code?
    requires closed == settled.(targets := closed.targets, outline := closed.outline) && closed.blocks == at + 1
    requires Known(closed, extended, source) && InBounds(was, source) && !closed.brackets[at]
    requires TailParsed(parse, source, extended, closed, definitions, closed.blocks, now, nowDefined)
    ensures Known(settled, was, source)
    ensures ParsedFrom(parse, source, was, settled, definitions)
            == ParsedFrom(parse, source, extended, closed, definitions)
    ensures TailParsed(parse, source, was, settled, definitions, at, now, nowDefined)
    ensures GivesUp(parse, source, settled, definitions) <==> GivesUp(parse, source, closed, definitions)
    ensures GivesUp(parse, source, settled, definitions) ==>
              && FirstTrue(settled.brackets) == FirstTrue(closed.brackets) < at
              && (OnOwnLine(source, was, FirstTrue(settled.brackets)) <==>
                  OnOwnLine(source, extended, FirstTrue(settled.brackets)))
              && (StaysBefore(source, was, FirstTrue(settled.brackets)) <==>
                  StaysBefore(source, extended, FirstTrue(settled.brackets)))
    ensures !GivesUp(parse, source, settled, definitions) ==> at + 1 <= |now| && now[..at + 1] == extended[..at + 1]
    ensures KeptBlocks(parse, source, closed, definitions)
         == KeptBlocks(parse, source, settled, definitions)
         == if GivesUp(parse, source, settled, definitions) then FirstTrue(settled.brackets) else at + 1
  {
    hide BackTo, OnOwnLine, StaysBefore, TailIs, PrefixOf, SpansUpTo;
    var b := FirstTrue(settled.brackets);
    if GivesUp(parse, source, settled, definitions) {
      PrefixOfBlocks(was, extended, at, b);
      SameBack(was, extended, b, source);
    }
  }
}
