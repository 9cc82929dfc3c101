/**
 What the document decides before it parses its tail, as functions of its state: how far back a block's
 text may reach, whether settled blocks have to be given up on, and what is then parsed.
 */
module TailParses {
  import opened Bytes
  import opened LineIndexing
  import opened CodeBlocks
  import opened OpenFences
  import opened FenceExtension
  import opened Targets
  import opened Settling

  /** The spans a settling step takes over, and the ones it leaves to the tail. */
  ghost function SpansUpTo(spans: seq<Range>, end: nat): seq<Range> {
    if spans == [] then []
    else
      var last := spans[|spans| - 1];
      SpansUpTo(spans[..|spans| - 1], end) + if last.end <= end then [last] else []
  }

  ghost function SpansBeyond(spans: seq<Range>, end: nat): seq<Range> {
    if spans == [] then []
    else
      var last := spans[|spans| - 1];
      SpansBeyond(spans[..|spans| - 1], end) + if last.end <= end then [] else [last]
  }

  lemma TakeNoSpans(spans: seq<Range>, end: nat)
    ensures SpansUpTo(spans[..0], end) == [] && SpansBeyond(spans[..0], end) == []
  {
  }

  lemma TakeSpan(spans: seq<Range>, i: nat, end: nat)
    requires i < |spans|
    ensures SpansUpTo(spans[..i + 1], end) == SpansUpTo(spans[..i], end) + if spans[i].end <= end then [spans[i]]
            else []
    ensures SpansBeyond(spans[..i + 1], end) == SpansBeyond(spans[..i], end) + if spans[i].end <= end then []
            else [spans[i]]
  {
    assert spans[..i + 1][..i] == spans[..i];
  }

  lemma {:induction false} SpansUpToWithin(spans: seq<Range>, end: nat, size: nat)
    requires SpansWithin(spans, size)
    ensures SpansWithin(SpansUpTo(spans, end), Min(end, size)) && SpansWithin(SpansBeyond(spans, end), size)
  {
    if spans != [] {
      SpansUpToWithin(spans[..|spans| - 1], end, size);
    }
  }

  lemma PrefixPush(spans: seq<Range>, span: Range, source: Source)
    requires SpansWithin(spans, |source|) && span.start <= span.end <= |source|
    ensures PrefixOf(spans + [span], source) == PrefixOf(spans, source) + source[span.start..span.end] + [LF]
  {
    assert (spans + [span])[..|spans|] == spans;
  }

  lemma NoSpans(size: nat)
    ensures SpansWithin([], size)
  {
  }

  lemma SpanAt(spans: seq<Range>, i: nat, size: nat)
    requires SpansWithin(spans, size) && i < |spans|
    ensures spans[i].start <= spans[i].end <= size
  {
  }

  lemma OneSpanMore(spans: seq<Range>, span: Range, size: nat)
    requires SpansWithin(spans, size) && span.start <= span.end <= size
    ensures SpansWithin(spans + [span], size)
  {
  }

  lemma SpansLater(spans: seq<Range>, end: nat, later: nat)
    requires SpansWithin(spans, end) && end <= later
    ensures SpansWithin(spans, later)
  {
  }

  lemma DefinitionAt(settled: Settled, i: nat, source: Source)
    requires DefinitionsMatch(settled, source) && i < |settled.definitions|
    ensures settled.definitions[i].start <= settled.definitions[i].end <= |source|
  {
    hide PrefixOf;
  }

  lemma DefinitionsLater(settled: Settled, later: Settled, source: Source)
    requires DefinitionsMatch(settled, source) && Resumable(source, later.sourceEnd)
    requires settled.sourceEnd <= later.sourceEnd
    requires later.definitions == settled.definitions && later.prefix == settled.prefix
    ensures later.sourceEnd <= |source| && DefinitionsMatch(later, source)
  {
    hide PrefixOf, BlankLine;
  }

  lemma DefinitionTaken(settled: Settled, span: Range, source: Source)
    requires DefinitionsMatch(settled, source) && span.start <= span.end <= settled.sourceEnd
    ensures span.end <= |source|
    ensures DefinitionsMatch(settled.(prefix := settled.prefix + source[span.start..span.end] + [LF],
                                      definitions := settled.definitions + [span]), source)
  {
    hide PrefixOf;
    PrefixPush(settled.definitions, span, source);
  }

  // ---- how far back a block's text reaches ---------------------------------

  /** The start of the run of lines that ends with the line at `line`: lines are added upwards while they
      are not blank and start at or after `gapStart`. */
  ghost function AttachedFrom(source: Source, line: nat, gapStart: nat): (r: nat)
    requires line <= |source|
    ensures r <= line && (gapStart <= line ==> gapStart <= r)
  {
    if line <= gapStart then line
    else
      var previous := LineStart(source, line - 1);
      if previous < gapStart || BlankLine(source, previous) then line else AttachedFrom(source, previous, gapStart)
  }

  ghost function AttachedAt(source: Source, start: nat, gapStart: nat): (r: nat)
    requires start <= |source|
    ensures r <= LineStart(source, start) <= |source|
  {
    AttachedFrom(source, LineStart(source, start), gapStart)
  }

  /** The run stays behind the gap if and only if the line it ends with does. */
  lemma AttachedKeepsGapIff(source: Source, start: nat, gapStart: nat)
    requires start <= |source|
    ensures gapStart <= AttachedAt(source, start, gapStart) <==> gapStart <= LineStart(source, start)
  {
    hide LineStart;
  }

  /** Every line of the run but the last is not blank, and the line before it is blank or before the gap. */
  lemma {:induction false} AttachedRun(source: Source, line: nat, gapStart: nat)
    requires line <= |source| && (line == 0 || source[line - 1] == LF)
    ensures var r := AttachedFrom(source, line, gapStart);
            && (r == 0 || source[r - 1] == LF)
            && (forall l :: r <= l < line && (l == 0 || source[l - 1] == LF) ==> !BlankLine(source, l))
            && (r <= gapStart || LineStart(source, r - 1) < gapStart || BlankLine(source, LineStart(source, r - 1)))
  {
    hide BlankLine, LineStart;
    if line > gapStart {
      var previous := LineStart(source, line - 1);
      LineStartShape(source, line - 1);
      if previous >= gapStart && !BlankLine(source, previous) {
        AttachedRun(source, previous, gapStart);
        SliceWithout(source, previous, line - 1, LF);
      }
    }
  }

  /** Where parsing resumes once the fence is closed, if bytes from `start` on close it. */
  ghost function ResumesAt(fence: OpenFence, source: Source, start: nat): Option<nat>
    requires fence.contentStart <= start
  {
    match FirstClosingEnd(fence, source, start)
    case None => None
    case Some(end) => Some(AfterEol(source, end))
  }

  // ---- giving up on settled blocks -----------------------------------------

  function FirstTrue(flags: seq<bool>): (r: nat)
    ensures r <= |flags| && (forall i :: 0 <= i < r ==> !flags[i]) && (r < |flags| ==> flags[r])
  {
    if flags == [] || flags[0] then 0
    else
      var r := FirstTrue(flags[1..]);
      assert forall i :: 0 < i < |flags| ==> flags[i] == flags[1..][i - 1];
      1 + r
  }

  /** The reference definitions are not what they were, and some settled block could refer to one. */
  predicate GivesUp(parse: Parser, source: Source, settled: Settled, definitions: map<Source, Definition>) {
    && parse(source, settled.sourceEnd, settled.prefix).definitions != definitions
    && FirstTrue(settled.brackets) < |settled.brackets|
  }

  /** Where block `b` starts at the earliest. */
  ghost function GapBefore(blocks: seq<Block>, b: nat): nat
    requires b < |blocks|
  {
    EndBefore(blocks, b, 0)
  }

  /** How far the document goes back to parse from block `b` on again. */
  ghost function BackTo(source: Source, blocks: seq<Block>, b: nat): (r: nat)
    requires b < |blocks| && blocks[b].source.bytes.start <= |source|
    ensures r <= |source|
  {
    AttachedAt(source, blocks[b].source.bytes.start, GapBefore(blocks, b))
  }

  /** Going back to block `b` does not reach into the block before it. */
  ghost predicate OnOwnLine(source: Source, blocks: seq<Block>, b: nat)
    requires b < |blocks|
  {
    blocks[b].source.bytes.start <= |source| && GapBefore(blocks, b) <= LineStart(source, blocks[b].source.bytes.start)
  }

  /** Every commentable node of the blocks before `b` starts before where the document goes back to. */
  ghost predicate StaysBefore(source: Source, blocks: seq<Block>, b: nat)
    requires b < |blocks|
  {
    blocks[b].source.bytes.start <= |source| && StartBefore(Nodes(blocks[..b]), BackTo(source, blocks, b))
  }

  /** The document goes back to the start of a line: of the block's own, or of one at or after the end of the
      block before. */
  lemma BackIsLineStart(source: Source, blocks: seq<Block>, b: nat)
    requires b < |blocks| && blocks[b].source.bytes.start <= |source|
    ensures var back := BackTo(source, blocks, b);
            && LineStart(source, back) == back <= LineStart(source, blocks[b].source.bytes.start)
            && (back == LineStart(source, blocks[b].source.bytes.start) || GapBefore(blocks, b) <= back)
  {
    hide LineStart, BlankLine;
    var start := blocks[b].source.bytes.start;
    LineStartShape(source, start);
    AttachedRun(source, LineStart(source, start), GapBefore(blocks, b));
    LineStartIs(source, BackTo(source, blocks, b));
    KeepsLineOrGap(source, LineStart(source, start), GapBefore(blocks, b));
  }

  lemma KeepsLineOrGap(source: Source, line: nat, gapStart: nat)
    requires line <= |source|
    ensures AttachedFrom(source, line, gapStart) == line || gapStart <= AttachedFrom(source, line, gapStart)
  {
    hide LineStart, BlankLine;
  }

  /** The blocks that a parse of the tail leaves alone. */
  function KeptBlocks(parse: Parser, source: Source, settled: Settled, definitions: map<Source, Definition>): nat {
    if GivesUp(parse, source, settled, definitions) then FirstTrue(settled.brackets) else settled.blocks
  }

  /** One flag for every settled block, and nothing beyond the source. */
  ghost predicate Known(settled: Settled, blocks: seq<Block>, source: Source) {
    && |settled.brackets| == settled.blocks <= |blocks| && InBounds(blocks, source)
    && settled.sourceEnd <= |source| && SpansWithin(settled.definitions, |source|)
  }

  /** Where the parse that the tail is taken from in the end starts, ... */
  ghost function ParsedFrom(parse: Parser, source: Source, blocks: seq<Block>, settled: Settled,
                            definitions: map<Source, Definition>): (r: nat)
    requires Known(settled, blocks, source)
    ensures r <= |source|
  {
    if GivesUp(parse, source, settled, definitions) then BackTo(source, blocks, FirstTrue(settled.brackets))
        else settled.sourceEnd
  }

  /** ... and what it yields. */
  ghost function LastParse(parse: Parser, source: Source, blocks: seq<Block>, settled: Settled,
                           definitions: map<Source, Definition>): Parsed
    requires Known(settled, blocks, source)
  {
    var from := ParsedFrom(parse, source, blocks, settled, definitions);
    SpansUpToWithin(settled.definitions, from, |source|);
    parse(source, from, if GivesUp(parse, source, settled, definitions)
          then PrefixOf(SpansUpTo(settled.definitions, from), source)
                        else settled.prefix)
  }

  /** The blocks are these up to targets, from `kept` on. */
  ghost predicate TailIs(blocks: seq<Block>, kept: nat, parsed: seq<Block>) {
    && |blocks| == kept + |parsed|
    && forall i :: 0 <= i < |parsed| ==> SameBlock(parsed[i], blocks[kept + i])
  }

  /** What parsing the tail leaves: behind the kept blocks, which are as they were before `same`, the last parse. */
  ghost predicate TailParsed(parse: Parser, source: Source, blocks: seq<Block>, settled: Settled,
                             definitions: map<Source, Definition>, same: nat, now: seq<Block>,
                                 nowDefined: map<Source, Definition>)
    requires Known(settled, blocks, source)
  {
    var kept := KeptBlocks(parse, source, settled, definitions);
    var last := LastParse(parse, source, blocks, settled, definitions);
    var n := Min(kept, same);
    && n <= |blocks| && n <= |now| && now[..n] == blocks[..n]
    && TailIs(now, kept, last.blocks) && nowDefined == last.definitions
  }

  lemma SameParsed(parse: Parser, source: Source, blocks: seq<Block>, settled: Settled,
                   definitions: map<Source, Definition>, same: nat, fewer: nat, now: seq<Block>,
                       nowDefined: map<Source, Definition>)
    requires Known(settled, blocks, source) && fewer <= same
    requires TailParsed(parse, source, blocks, settled, definitions, same, now, nowDefined)
    ensures TailParsed(parse, source, blocks, settled, definitions, fewer, now, nowDefined)
    ensures var n := Min(KeptBlocks(parse, source, settled, definitions), fewer);
            n <= |blocks| && n <= |now| && now[..n] == blocks[..n]
  {
    hide LastParse, KeptBlocks, TailIs;
    var kept := KeptBlocks(parse, source, settled, definitions);
    var m, n := Min(kept, same), Min(kept, fewer);
    assert now[..n] == now[..m][..n] && blocks[..n] == blocks[..m][..n];
  }

  lemma FirstTrueCut(flags: seq<bool>)
    ensures FirstTrue(flags[..FirstTrue(flags)]) == FirstTrue(flags)
  {
  }

  /** How far to go back depends on nothing behind the block. */
  lemma SameBack(a: seq<Block>, b: seq<Block>, at: nat, source: Source)
    requires at < |a| && at < |b| && a[..at + 1] == b[..at + 1] && InBounds(a, source)
    ensures a[at] == b[at] && a[at].source.bytes.start <= |source| && BackTo(source, a, at) == BackTo(source, b, at)
    ensures OnOwnLine(source, a, at) <==> OnOwnLine(source, b, at)
    ensures StaysBefore(source, a, at) <==> StaysBefore(source, b, at)
  {
    hide LineStart, AttachedAt, Nodes;
    assert a[..at] == a[..at + 1][..at] == b[..at + 1][..at] == b[..at];
    assert a[at] == a[..at + 1][at] && b[at] == b[..at + 1][at];
    if at > 0 {
      assert a[at - 1] == a[..at + 1][at - 1] && b[at - 1] == b[..at + 1][at - 1];
    }
  }

  lemma PrefixOfBlocks<T>(a: seq<T>, b: seq<T>, n: nat, k: nat)
    requires k < n <= |a| && n <= |b| && a[..n] == b[..n]
    ensures a[..k + 1] == b[..k + 1] && a[..k] == b[..k]
  {
    assert a[..k + 1] == a[..n][..k + 1] && b[..k + 1] == b[..n][..k + 1];
    assert a[..k] == a[..n][..k] && b[..k] == b[..n][..k];
  }

  // ---- what is right about the settled part ---------------------------------

  /** The settled blocks are numbered like a document of their own, and line by line before the settled end. */
  ghost predicate SettledNumbered(blocks: seq<Block>, targets: seq<Target>, outline: seq<OutlineEntry>,
                                  settled: Settled, source: Source)
  {
    && settled.blocks <= |blocks| && settled.targets <= |targets| && settled.outline <= |outline|
    && Numbering(blocks[..settled.blocks], targets[..settled.targets], outline[..settled.outline])
    && StartBefore(Nodes(blocks[..settled.blocks]), settled.sourceEnd)
    && NodesAscend(Nodes(blocks[..settled.blocks]), source)
  }

  lemma NumberedDependsOnPrefix(blocks: seq<Block>, targets: seq<Target>, outline: seq<OutlineEntry>,
                                settled: Settled, source: Source, nextBlocks: seq<Block>, nextTargets: seq<Target>,
                                    nextOutline: seq<OutlineEntry>)
    requires SettledNumbered(blocks, targets, outline, settled, source)
    requires settled.blocks <= |nextBlocks| && nextBlocks[..settled.blocks] == blocks[..settled.blocks]
    requires settled.targets <= |nextTargets| && nextTargets[..settled.targets] == targets[..settled.targets]
    requires settled.outline <= |nextOutline| && nextOutline[..settled.outline] == outline[..settled.outline]
    ensures SettledNumbered(nextBlocks, nextTargets, nextOutline, settled, source)
  {
    hide Numbering, StartBefore, NodesAscend, Nodes;
  }

  /** The whole document is numbered, line by line. */
  ghost predicate NumberedByLine(blocks: seq<Block>, targets: seq<Target>, outline: seq<OutlineEntry>, source: Source) {
    Numbering(blocks, targets, outline) && NodesAscend(Nodes(blocks), source)
  }

  /** Two commentable nodes have the same id. */
  ghost predicate SharesId(blocks: seq<Block>) {
    exists i, j :: 0 <= i < j < |Nodes(blocks)| && Nodes(blocks)[i].target == Nodes(blocks)[j].target
  }

  /** Fewer targets than there are nodes, which are numbered. */
  ghost predicate Short(blocks: seq<Block>, targets: nat) {
    targets < |Nodes(blocks)| && Nodes(blocks) == Numbered(Nodes(blocks), 0)
  }

  /** The ids do not match the targets, and when there is a node behind the first `kept` blocks, two nodes have the
      same one. */
  ghost predicate Misnumbered(blocks: seq<Block>, targets: seq<Target>, outline: seq<OutlineEntry>, kept: nat) {
    && !Numbering(blocks, targets, outline)
    && (kept <= |blocks| && Nodes(blocks[kept..]) != [] ==> SharesId(blocks))
  }

  /** The first `t` targets and `o` headings are those of the blocks that stay if and only if `stays`; otherwise
      they are too few. */
  ghost predicate CountsIff(stays: bool, kept: seq<Block>, targets: seq<Target>, outline: seq<OutlineEntry>,
                            t: nat, o: nat)
  {
    && t <= |targets| && o <= |outline|
    && (Numbering(kept, targets[..t], outline[..o]) <==> stays)
    && (stays ==> t == |Nodes(kept)| && o == |Headings(kept)|)
    && (!stays ==> Short(kept, t))
  }

  /** Targets counted by position: those of the blocks before the cut if and only if their nodes all start
      before it. */
  lemma CountsAtCut(blocks: seq<Block>, n: nat, targets: seq<Target>, outline: seq<OutlineEntry>, source: Source,
                    end: nat)
    requires n <= |blocks| && end <= |source| && NumberedByLine(blocks, targets, outline, source)
    requires StartFrom(Nodes(blocks[n..]), end)
    requires StartBefore(Nodes(blocks[..n]), end) || LineStart(source, end) == end
    ensures CountsIff(StartBefore(Nodes(blocks[..n]), end), blocks[..n], targets, outline,
                      TargetsBefore(targets, end), HeadingsBefore(outline, end))
    ensures NodesAscend(Nodes(blocks[..n]), source) && IsCut(targets, TargetsBefore(targets, end), end)
  {
    hide Nodes, Headings, LineStart, NodesAscend, StartBefore, StartFrom, TargetsMatch, TargetsBefore, HeadingsBefore;
    var a, b := blocks[..n], blocks[n..];
    assert blocks == a + b;
    NodesConcat(a, b);
    AscendPrefix(Nodes(a), Nodes(b), source);
    if StartBefore(Nodes(a), end) {
      NumberingCut(a, b, targets, outline, end);
      CutBetween(a, b, targets, end);
    } else {
      WholeCut(blocks, targets, source, end);
      CountFallsShort(a, b, targets, source, end);
      PrefixNumbered(a, b, targets);
      FewTargets(a, targets[..TargetsBefore(targets, end)]);
    }
  }

  lemma PrefixNumbered(a: seq<Block>, b: seq<Block>, targets: seq<Target>)
    requires TargetsMatch(a + b, targets)
    ensures Nodes(a) == Numbered(Nodes(a), 0)
  {
    hide Nodes;
    NodesConcat(a, b);
    NumberedConcat(Nodes(a), Nodes(b), 0);
    assert Nodes(a) == (Nodes(a) + Nodes(b))[..|Nodes(a)|];
  }

  lemma CutBetween(a: seq<Block>, b: seq<Block>, targets: seq<Target>, end: nat)
    requires TargetsMatch(a + b, targets) && StartBefore(Nodes(a), end) && StartFrom(Nodes(b), end)
    ensures IsCut(targets, TargetsBefore(targets, end), end)
  {
    hide Nodes, TargetsBefore;
    NodesConcat(a, b);
    NumberedConcat(Nodes(a), Nodes(b), 0);
    TargetsCut(a, b, targets, end);
    forall i | 0 <= i < |Nodes(a)|
      ensures targets[i].source.bytes.start < end
    {
      assert Nodes(a)[i] in Nodes(a);
    }
  }

  lemma WholeCut(blocks: seq<Block>, targets: seq<Target>, source: Source, end: nat)
    requires TargetsMatch(blocks, targets) && NodesAscend(Nodes(blocks), source)
    requires end <= |source| && LineStart(source, end) == end
    ensures IsCut(targets, TargetsBefore(targets, end), end)
  {
    hide Nodes, NodesAscend, LineStart;
    CutAtLineStart(Nodes(blocks), targets, source, end);
  }

  lemma FewTargets(blocks: seq<Block>, targets: seq<Target>)
    requires |targets| < |Nodes(blocks)|
    ensures !TargetsMatch(blocks, targets)
  {
    hide Nodes;
  }

  /** Numbering new blocks behind the ones that stay numbers the whole if and only if the targets that stay are those
      of the blocks that do; when they are too few, the first new node gets an id that is taken. */
  lemma NumberingJoinIff(kept: seq<Block>, parsed: seq<Block>, done: seq<Block>, targets: seq<Target>,
                         outline: seq<OutlineEntry>)
    requires AssignedFrom(parsed, done, |targets|)
    ensures Numbering(kept + done, targets + TargetsOf(Nodes(parsed), |targets|), outline + Headings(done))
            <==> Numbering(kept, targets, outline)
    ensures Short(kept, |targets|) && Nodes(done) != [] ==> SharesId(kept + done)
  {
    hide Nodes, Headings, SameBlock;
    NodesConcat(kept, done);
    HeadingsConcat(kept, done);
    var all, headings := targets + TargetsOf(Nodes(parsed), |targets|), outline + Headings(done);
    if Numbering(kept, targets, outline) {
      NumberingJoin(kept, parsed, done, targets, outline);
    } else if Numbering(kept + done, all, headings) {
      SameFront(outline, Headings(kept), Headings(done));
      FrontMatches(kept, done, targets, all);
      assert false;
    }
    if Short(kept, |targets|) && Nodes(done) != [] {
      FirstIdTaken(Nodes(kept), Nodes(done), |targets|);
    }
  }

  lemma SameFront<T>(a: seq<T>, b: seq<T>, rest: seq<T>)
    requires a + rest == b + rest
    ensures a == b
  {
    assert |a + rest| == |b + rest|;
    assert a == (a + rest)[..|a|] && b == (b + rest)[..|b|];
  }

  lemma FrontMatches(kept: seq<Block>, done: seq<Block>, targets: seq<Target>, all: seq<Target>)
    requires TargetsMatch(kept + done, all) && targets <= all && |all| == |targets| + |Nodes(done)|
    ensures TargetsMatch(kept, targets)
  {
    hide Nodes;
    PrefixNumbered(kept, done, all);
    NodesConcat(kept, done);
    NumberedConcat(Nodes(kept), Nodes(done), 0);
    assert targets == all[..|targets|];
  }

  lemma FirstIdTaken(kept: seq<Node>, done: seq<Node>, next: nat)
    requires next < |kept| && kept == Numbered(kept, 0) && done == Numbered(done, next) && done != []
    ensures exists i, j :: 0 <= i < j < |kept + done| && (kept + done)[i].target == (kept + done)[j].target
  {
    assert (kept + done)[next] == Numbered(kept, 0)[next];
    assert (kept + done)[|kept|] == Numbered(done, next)[0];
  }

  // ---- giving up, and parsing again -------------------------------------------

  /** How often a document was parsed, whether its settled blocks are in place, and whether its ids are. */
  datatype Standing = Standing(parses: nat, intact: bool, numbered: bool)

  /** What a parse of the tail means for that. Settled blocks are given up on from block `b` of `was` on, if they are;
      when ids stop being in place, they do not match the targets any more. */
  ghost predicate StandsAfter(source: Source, was: seq<Block>, gives: bool, b: nat, before: Standing, now: Standing,
                              blocks: seq<Block>, targets: seq<Target>, outline: seq<OutlineEntry>)
  {
    && now.parses == before.parses + (if gives then 2 else 1)
    && (gives ==> b < |was|)
    && (now.intact <==> before.intact && (gives ==> OnOwnLine(source, was, b)))
    && (now.numbered <==> before.numbered && (gives ==> StaysBefore(source, was, b)))
    && (before.numbered && !now.numbered ==> Misnumbered(blocks, targets, outline, b))
  }

  /** What parsing the tail until the definitions stay what they were leaves, behind the `first` blocks it leaves
      alone. */
  ghost predicate Reached(parse: Parser, source: Source, was: seq<Block>, basis: Settled,
                          definitions: map<Source, Definition>, before: Standing, first: nat, from: nat,
                              blocks: seq<Block>, targets: seq<Target>, outline: seq<OutlineEntry>,
                                  nowDefined: map<Source, Definition>, now: Standing)
  {
    && Known(basis, was, source)
    && TailParsed(parse, source, was, basis, definitions, basis.blocks, blocks, nowDefined)
    && first == KeptBlocks(parse, source, basis, definitions)
    && from == ParsedFrom(parse, source, was, basis, definitions)
    && StandsAfter(source, was, GivesUp(parse, source, basis, definitions), first, before, now, blocks, targets,
                   outline)
  }

  lemma ReachedMeans(parse: Parser, source: Source, was: seq<Block>, basis: Settled,
                     definitions: map<Source, Definition>, before: Standing, first: nat, from: nat,
                         blocks: seq<Block>, targets: seq<Target>, outline: seq<OutlineEntry>,
                             nowDefined: map<Source, Definition>, now: Standing)
    requires Reached(parse, source, was, basis, definitions, before, first, from, blocks, targets, outline, nowDefined,
                     now)
    ensures Known(basis, was, source)
    ensures TailParsed(parse, source, was, basis, definitions, basis.blocks, blocks, nowDefined)
    ensures first == KeptBlocks(parse, source, basis, definitions)
    ensures from == ParsedFrom(parse, source, was, basis, definitions)
    ensures StandsAfter(source, was, GivesUp(parse, source, basis, definitions), first, before, now, blocks, targets,
                        outline)
  {
    hide Known, TailParsed, KeptBlocks, ParsedFrom, StandsAfter, GivesUp;
  }

  /** Settled blocks were given up on: the ones before the first bracket stay, and the document goes back. When its ids
      stop being in place, the targets that stay are too few. */
  ghost predicate SteppedBack(parse: Parser, source: Source, was: seq<Block>, basis: Settled,
                              definitions: map<Source, Definition>, before: Standing, blocks: seq<Block>,
                                  settled: Settled, targets: nat, now: Standing)
  {
    && Known(basis, was, source) && GivesUp(parse, source, basis, definitions)
    && settled.blocks == FirstTrue(basis.brackets) == FirstTrue(settled.brackets) == |settled.brackets| < basis.blocks
    && settled.blocks <= |blocks| && blocks[..settled.blocks] == was[..settled.blocks]
    && settled.sourceEnd == ParsedFrom(parse, source, was, basis, definitions)
    && LastParse(parse, source, was, basis, definitions) == parse(source, settled.sourceEnd, settled.prefix)
    && now.parses == before.parses + 1
    && (now.intact <==> before.intact && OnOwnLine(source, was, settled.blocks))
    && (now.numbered <==> before.numbered && StaysBefore(source, was, settled.blocks))
    && (before.numbered && !now.numbered ==> Short(blocks[..settled.blocks], Min(settled.targets, targets)))
  }

  lemma BracketIsSettled(parse: Parser, source: Source, was: seq<Block>, basis: Settled,
                         definitions: map<Source, Definition>)
    requires Known(basis, was, source) && GivesUp(parse, source, basis, definitions)
    ensures FirstTrue(basis.brackets) < basis.blocks == |basis.brackets|
  {
  }

  lemma StepsBack(parse: Parser, source: Source, was: seq<Block>, basis: Settled, definitions: map<Source, Definition>,
                  before: Standing, blocks: seq<Block>, settled: Settled, targets: seq<Target>,
                      outline: seq<OutlineEntry>, now: Standing)
    requires Known(basis, was, source) && GivesUp(parse, source, basis, definitions) && InBounds(blocks, source)
    requires basis.blocks <= |blocks| && blocks[..basis.blocks] == was[..basis.blocks]
    requires settled.blocks == FirstTrue(basis.brackets) && settled.brackets == basis.brackets[..settled.blocks]
    requires settled.sourceEnd == BackTo(source, blocks, settled.blocks) && DefinitionsMatch(settled, source)
    requires settled.definitions == SpansUpTo(basis.definitions, settled.sourceEnd)
    requires now.parses == before.parses + 1
    requires now.intact <==> before.intact && OnOwnLine(source, blocks, settled.blocks)
    requires now.numbered <==> before.numbered && StaysBefore(source, blocks, settled.blocks)
    requires before.numbered ==> CountsIff(StaysBefore(source, blocks, settled.blocks), blocks[..settled.blocks],
                                           targets, outline, settled.targets, settled.outline)
    ensures SteppedBack(parse, source, was, basis, definitions, before, blocks, settled, |targets|, now)
  {
    hide BackTo, SpansUpTo, PrefixOf, OnOwnLine, StaysBefore, Short, Numbering, Nodes, Headings;
    FirstTrueCut(basis.brackets);
    PrefixOfBlocks(blocks, was, basis.blocks, settled.blocks);
    SameBack(blocks, was, settled.blocks, source);
  }

  /** What one parse leaves when it is not followed by another, ... */
  lemma ParsedOnce(parse: Parser, source: Source, was: seq<Block>, settled: Settled,
                   definitions: map<Source, Definition>, before: Standing, now: Standing, blocks: seq<Block>,
                       targets: seq<Target>, outline: seq<OutlineEntry>)
    requires Known(settled, was, source)
    requires settled.blocks <= |blocks| && blocks[..settled.blocks] == was[..settled.blocks]
    requires TailIs(blocks, settled.blocks, parse(source, settled.sourceEnd, settled.prefix).blocks)
    requires now == before.(parses := before.parses + 1)
    ensures var parsed := parse(source, settled.sourceEnd, settled.prefix);
            && (GivesUp(parse, source, settled, definitions) <==>
                parsed.definitions != definitions && FirstTrue(settled.brackets) < |settled.brackets|)
            && (!GivesUp(parse, source, settled, definitions) ==>
                  Reached(parse, source, was, settled, definitions, before, settled.blocks, settled.sourceEnd, blocks,
                          targets, outline, parsed.definitions, now))
  {
    hide TailIs, OnOwnLine, StaysBefore, Misnumbered;
  }

  /** ... and what the second one leaves. */
  lemma ParsedAgain(parse: Parser, source: Source, was: seq<Block>, basis: Settled,
                    definitions: map<Source, Definition>, before: Standing, half: seq<Block>, count: nat,
                        settled: Settled, between: Standing, now: Standing, blocks: seq<Block>, targets: seq<Target>,
                            outline: seq<OutlineEntry>)
    requires SteppedBack(parse, source, was, basis, definitions, before, half, settled, count, between)
    requires settled.blocks <= |blocks| && blocks[..settled.blocks] == half[..settled.blocks]
    requires TailIs(blocks, settled.blocks, parse(source, settled.sourceEnd, settled.prefix).blocks)
    requires now == between.(parses := between.parses + 1)
    requires Short(blocks[..settled.blocks], Min(settled.targets, count)) ==>
             Misnumbered(blocks, targets, outline, settled.blocks)
    ensures var parsed := parse(source, settled.sourceEnd, settled.prefix);
            && settled.blocks < basis.blocks && FirstTrue(settled.brackets) == |settled.brackets|
            && Reached(parse, source, was, basis, definitions, before, settled.blocks, settled.sourceEnd, blocks,
                       targets, outline, parsed.definitions, now)
  {
    hide TailIs, LastParse, ParsedFrom, OnOwnLine, StaysBefore, Short, Misnumbered;
  }

  function Truncated<T>(s: seq<T>, n: nat): (r: seq<T>)
    ensures r <= s && |r| == Min(n, |s|)
  {
    if n <= |s| then s[..n] else s
  }

  // ---- when an open fence closes --------------------------------------------

  /** One flag for each block: whether a later reference definition could change it. */
  ghost function FlagsOf(blocks: seq<Block>, source: Source): (r: seq<bool>)
    ensures BracketsMatch(r, blocks, source)
  {
    seq(|blocks|, i requires 0 <= i < |blocks| => HasBracket(blocks[i], source))
  }

  /** What is settled once the fence at block `at`, the last one, is closed and parsing resumes at `resume`. */
  ghost function ClosedSettled(settled: Settled, blocks: seq<Block>, source: Source, tailDefinitions: seq<Range>,
                               at: nat, resume: nat): Settled
    requires at < |blocks| && SpansWithin(settled.definitions, |source|) && SpansWithin(tailDefinitions, |source|)
  {
    SpansUpToWithin(tailDefinitions, resume, |source|);
    var all := settled.definitions + SpansUpTo(tailDefinitions, resume);
    settled.(blocks := at + 1, sourceEnd := resume, brackets := FlagsOf(blocks[..at], source) + [false],
             definitions := all, prefix := PrefixOf(all, source))
  }
}
