/**
 The open block inside its document: renumbering its lines when they change, and what its new lines
 mean for the document's targets and for where its nodes lie.
 */
module FenceTargets {
  import opened Bytes
  import opened LineIndexing
  import opened FenceLines
  import opened CodeBlocks
  import opened OpenFences
  import opened FenceExtension
  import opened Targets
  import opened Settling

  /** Gives the lines from `from` on new targets at the end of the list, which is cut back to make
      room for them, and moves the block's own target. */
  method SyncCodeTargets(code: CodeBlock, targets: seq<Target>, from: nat)
    returns (synced: CodeBlock, numbered: seq<Target>)
    requires from <= |code.body.lines|
    ensures code.target.None? ==> synced == code && numbered == targets
    ensures code.target.Some? && code.target.value + 1 + from <= |targets| ==>
              var base := code.target.value;
              && synced == code.(body := AimLines(code.body, base, from))
              && numbered == targets[base := targets[base].(source := code.source)][..base + 1 + from]
                             + TargetsOf(CodeNodes(code)[1 + from..], base + 1 + from)
  {
    synced, numbered := code, targets;
    if code.target.None? {
      return;
    }
    var base := code.target.value;
    if base < |numbered| {
      numbered := numbered[base := numbered[base].(source := code.source)];
    }
    numbered := numbered[..Min(base + 1 + from, |numbered|)];
    var kept := numbered;
    var lines := code.body.lines[..from];
    assert code.body.lines[from..from] == [];
    for i := from to |code.body.lines|
      invariant lines == code.body.lines[..from] + Retargeted(code.body.lines[from..i], |kept|)
      invariant numbered == kept + LineTargets(code.body.lines[from..i], |kept|)
    {
      var id := |numbered|;
      assert code.body.lines[from..i + 1] == code.body.lines[from..i] + [code.body.lines[i]];
      lines := lines + [code.body.lines[i].(target := Some(id))];
      numbered := numbered + [Target(id, CodeLineTarget, code.body.lines[i].source)];
    }
    synced := code.(body := Body(code.body.text, lines));
    SyncedTargets(code, base, from);
    assert code.body.lines[from..|code.body.lines|] == code.body.lines[from..];
  }

  function Retargeted(lines: seq<CodeLine>, next: nat): seq<CodeLine> {
    seq(|lines|, i requires 0 <= i < |lines| => lines[i].(target := Some(next + i)))
  }

  function LineTargets(lines: seq<CodeLine>, next: nat): seq<Target> {
    seq(|lines|, i requires 0 <= i < |lines| => Target(next + i, CodeLineTarget, lines[i].source))
  }

  lemma SyncedTargets(code: CodeBlock, base: nat, from: nat)
    requires from <= |code.body.lines|
    ensures code.body.lines[..from] + Retargeted(code.body.lines[from..], base + 1 + from)
            == AimLines(code.body, base, from).lines
    ensures LineTargets(code.body.lines[from..], base + 1 + from)
            == TargetsOf(CodeNodes(code)[1 + from..], base + 1 + from)
  {
  }

  /** After syncing, the targets again match the blocks, the last of which is the changed one. */
  lemma NumberingExtended(before: seq<Block>, previous: Block, block: Block, code: CodeBlock, targets: seq<Target>,
                          outline: seq<OutlineEntry>, numbered: seq<Target>, from: nat)
    requires Numbering(before + [previous], targets, outline)
    requires previous.kind.Code? && block.kind.Code?
    requires SameLines(code.body, previous.kind.code.body, from)
    requires code.target == previous.kind.code.target == Some(|Nodes(before)|)
    requires var base := |Nodes(before)|;
             && block.kind.code == code.(body := AimLines(code.body, base, from))
             && base + 1 + from <= |targets|
             && numbered == targets[base := targets[base].(source := code.source)][..base + 1 + from]
                            + TargetsOf(CodeNodes(code)[1 + from..], base + 1 + from)
    ensures Numbering(before + [block], numbered, outline)
  {
    hide Nodes, Headings, Numbered, TargetsOf, CodeNodes, SameLines, AimLines;
    var base := |Nodes(before)|;
    hide NodesOf;
    NodesPush(before, previous);
    NodesPush(before, block);
    HeadingsPush(before, previous);
    HeadingsPush(before, block);
    CodeBlockNodes(previous);
    CodeBlockNodes(block);
    var was, now := CodeNodes(previous.kind.code), CodeNodes(block.kind.code);
    CodeNodesExtended(previous.kind.code, code, block.kind.code, base, from);
    MatchParts(Nodes(before), was, targets);
    MatchExtended(Nodes(before), was, now, targets, numbered, code.source, from, CodeNodes(code)[1 + from..]);
  }

  lemma CodeBlockNodes(block: Block)
    requires block.kind.Code?
    ensures NodesOf(block) == CodeNodes(block.kind.code)
  {
    hide CodeNodes;
  }

  lemma CodeNodesExtended(was: CodeBlock, code: CodeBlock, now: CodeBlock, base: nat, from: nat)
    requires SameLines(code.body, was.body, from) && now == code.(body := AimLines(code.body, base, from))
    requires code.target == was.target == Some(base)
    ensures from + 1 <= |CodeNodes(was)| && from + 1 <= |CodeNodes(code)| == |CodeNodes(now)|
    ensures CodeNodes(now)[0] == Node(Some(base), CodeBlockTarget, code.source)
    ensures CodeNodes(was)[0].target == Some(base) && CodeNodes(was)[0].kind == CodeBlockTarget
    ensures CodeNodes(now)[1..1 + from] == CodeNodes(was)[1..1 + from]
    ensures forall i :: 1 + from <= i < |CodeNodes(now)| ==>
            CodeNodes(now)[i] == CodeNodes(code)[i].(target := Some(base + i))
  {
    var a, b := CodeNodes(now), CodeNodes(was);
    forall i | 1 <= i < 1 + from
      ensures a[i] == b[i]
    {
      assert code.body.lines[i - 1] == code.body.lines[..from][i - 1] == was.body.lines[..from][i - 1]
             == was.body.lines[i - 1];
    }
  }

  lemma MatchParts(a: seq<Node>, b: seq<Node>, targets: seq<Target>)
    requires targets == TargetsOf(a + b, 0) && a + b == Numbered(a + b, 0)
    ensures a == Numbered(a, 0) && b == Numbered(b, |a|)
    ensures targets == TargetsOf(a, 0) + TargetsOf(b, |a|)
  {
    NumberedConcat(a, b, 0);
    assert a == (a + b)[..|a|] == Numbered(a + b, 0)[..|a|];
    assert b == (a + b)[|a|..] == Numbered(a + b, 0)[|a|..];
  }

  lemma MatchExtended(a: seq<Node>, was: seq<Node>, now: seq<Node>, targets: seq<Target>, numbered: seq<Target>,
                      source: SourceRange, from: nat, rest: seq<Node>)
    requires a == Numbered(a, 0) && was == Numbered(was, |a|) && targets == TargetsOf(a, 0) + TargetsOf(was, |a|)
    requires from + 1 <= |was| && from + 1 <= |now|
    requires now[0] == Node(Some(|a|), CodeBlockTarget, source) && was[0].kind == CodeBlockTarget
    requires now[1..1 + from] == was[1..1 + from]
    requires |rest| == |now| - 1 - from
    requires forall i :: 1 + from <= i < |now| ==> now[i] == rest[i - 1 - from].(target := Some(|a| + i))
    requires |targets| > |a|
    requires numbered == targets[|a| := targets[|a|].(source := source)][..|a| + 1 + from]
             + TargetsOf(rest, |a| + 1 + from)
    ensures a + now == Numbered(a + now, 0) && numbered == TargetsOf(a + now, 0)
  {
    hide Numbered, TargetsOf;
    NowNumbered(a, was, now, from, rest);
    NumberedConcat(a, now, 0);
    TargetsUpTo(a, was, now, targets, source, from);
    assert now == now[..1 + from] + now[1 + from..];
    NumberedConcat(now[..1 + from], now[1 + from..], |a|);
    SameTargets(rest, now[1 + from..], |a|, |a| + 1 + from);
  }

  /** Cutting the list behind the lines that stay leaves the targets of what stays. */
  lemma TargetsUpTo(a: seq<Node>, was: seq<Node>, now: seq<Node>, targets: seq<Target>, source: SourceRange, from: nat)
    requires targets == TargetsOf(a, 0) + TargetsOf(was, |a|) && from + 1 <= |was| && from + 1 <= |now|
    requires now[0].kind == was[0].kind && now[0].source == source && now[1..1 + from] == was[1..1 + from]
    ensures |a| + 1 + from <= |targets|
    ensures targets[|a| := targets[|a|].(source := source)][..|a| + 1 + from] == TargetsOf(a, 0)
            + TargetsOf(now[..1 + from], |a|)
  {
    forall i | 0 < i < 1 + from
      ensures now[i] == was[i]
    {
      assert now[i] == now[1..1 + from][i - 1] == was[1..1 + from][i - 1];
    }
  }

  lemma SameTargets(rest: seq<Node>, nodes: seq<Node>, base: nat, next: nat)
    requires |rest| == |nodes| && forall i :: 0 <= i < |nodes| ==> nodes[i] == rest[i].(target := Some(next + i))
    ensures TargetsOf(rest, next) == TargetsOf(nodes, next)
  {
  }

  lemma NowNumbered(a: seq<Node>, was: seq<Node>, now: seq<Node>, from: nat, rest: seq<Node>)
    requires was == Numbered(was, |a|) && from + 1 <= |was| && from + 1 <= |now|
    requires now[0].target == Some(|a|) && now[1..1 + from] == was[1..1 + from]
    requires |rest| == |now| - 1 - from
    requires forall i :: 1 + from <= i < |now| ==> now[i] == rest[i - 1 - from].(target := Some(|a| + i))
    ensures now == Numbered(now, |a|)
  {
    forall i | 0 <= i < |now|
      ensures now[i] == Numbered(now, |a|)[i]
    {
      if 0 < i < 1 + from {
        assert now[i] == now[1..1 + from][i - 1] == was[1..1 + from][i - 1] == was[i] == Numbered(was, |a|)[i];
      }
    }
  }

  // ---- where the extended block's nodes lie --------------------------------

  lemma AimedLine(body: Body, base: nat, from: nat, i: nat)
    requires i < |body.lines|
    ensures |AimLines(body, base, from).lines| == |body.lines|
    ensures AimLines(body, base, from).lines[i].source == body.lines[i].source
  {
  }

  lemma TrackedLineStart(fence: OpenFence, source: Source, clips: seq<Clip>, base: nat, i: nat)
    requires fence.contentStart <= |source| && |clips| == |Split(fence, source)| - 1
    requires i < |TrackedBody(fence, source, clips, base).lines|
    ensures i < |Split(fence, source)|
    ensures TrackedBody(fence, source, clips, base).lines[i].source.bytes.start
            == fence.contentStart + Extent(Split(fence, source)[..i]) <= |source|
  {
    hide Lay, SplitLF, Extent, LineOf, NoContent;
    var ps := AimPieces(KeptAndOpen(fence, source, clips), base, 0);
    LaySize(ps);
    LayAt(ps, i);
    var split := Split(fence, source);
    SplitExtent(source[fence.contentStart..]);
    ExtentAscends(split, i, |split| - 1);
  }

  lemma {:induction false} ExtentAscends(split: seq<Source>, i: nat, j: nat)
    requires i <= j <= |split|
    ensures Extent(split[..i]) <= Extent(split[..j])
  {
    if i < j {
      ExtentAscends(split, i, j - 1);
      ExtentNext(split, j - 1);
    }
  }

  lemma ScratchLineStart(start: nat, end: nat, source: Source, base: nat, i: nat)
    requires start <= end && i < |ScratchBody(start, end, source, base).lines|
    ensures var content := ContentRange(Range(start, end), source);
            && content.end <= |source| && start <= content.start <= content.end
            && i < |SplitLF(source[content.start..content.end])|
            && ScratchBody(start, end, source, base).lines[i].source.bytes.start
               == content.start + Extent(SplitLF(source[content.start..content.end])[..i]) <= content.end
  {
    hide ClosesLine, FenceMarker, SplitLF, Lay;
    var content := ContentRange(Range(start, end), source);
    var body := FencedBody(content, source);
    AimedLine(body, base, 0, i);
    assert |source[content.start..content.end]| == content.end - content.start;
    LaySize(Pieces(SplitLF(source[content.start..content.end]), content.start, source));
    FencedLineAt(content, source, i);
  }

  /** A code block's nodes ascend when its lines do. */
  lemma CodeFromLine(block: Block, source: Source)
    requires block.kind.Code? && block.kind.code.source == block.source
    requires var lines := block.kind.code.body.lines;
             && (forall i :: 0 <= i < |lines| ==>
                               block.source.bytes.start <= lines[i].source.bytes.start <= |source|)
             && (forall i, j :: 0 <= i < j < |lines| ==> lines[i].source.bytes.start <= lines[j].source.bytes.start)
    requires block.source.bytes.start <= |source|
    ensures NodesFromLine(block, source)
  {
    hide LineStart;
    CodeBlockNodes(block);
  }

  lemma TrackedLinesAscend(fence: OpenFence, source: Source, clips: seq<Clip>, base: nat)
    requires fence.contentStart <= |source| && |clips| == |Split(fence, source)| - 1
    ensures var lines := TrackedBody(fence, source, clips, base).lines;
            && (forall i :: 0 <= i < |lines| ==> fence.contentStart <= lines[i].source.bytes.start <= |source|)
            && (forall i, j :: 0 <= i < j < |lines| ==> lines[i].source.bytes.start <= lines[j].source.bytes.start)
  {
    hide TrackedBody, Split, Extent;
    var lines := TrackedBody(fence, source, clips, base).lines;
    forall i, j | 0 <= i <= j < |lines|
      ensures fence.contentStart <= lines[i].source.bytes.start <= lines[j].source.bytes.start <= |source|
    {
      TrackedLineStart(fence, source, clips, base, i);
      TrackedLineStart(fence, source, clips, base, j);
      ExtentAscends(Split(fence, source), i, j);
    }
  }

  lemma ScratchLinesAscend(start: nat, end: nat, source: Source, base: nat)
    requires start <= end <= |source|
    ensures var lines := ScratchBody(start, end, source, base).lines;
            && (forall i :: 0 <= i < |lines| ==>
                              start <= lines[i].source.bytes.start <= ContentRange(Range(start, end), source).end)
            && (forall i, j :: 0 <= i < j < |lines| ==> lines[i].source.bytes.start <= lines[j].source.bytes.start)
  {
    hide ScratchBody, ContentRange, SplitLF, Extent;
    var lines, content := ScratchBody(start, end, source, base).lines, ContentRange(Range(start, end), source);
    forall i, j | 0 <= i <= j < |lines|
      ensures start <= lines[i].source.bytes.start <= lines[j].source.bytes.start <= content.end
    {
      ScratchLineStart(start, end, source, base, i);
      ScratchLineStart(start, end, source, base, j);
      ExtentAscends(SplitLF(source[content.start..content.end]), i, j);
    }
  }

  /** An extended block's nodes lie inside it, strictly so once the fence is closed. */
  lemma ExtendedNodesWithin(opening: OpenFence, source: Source, start: nat, previous: Body, clips: seq<Clip>, base: nat,
                            fence: OpenFence, closed: bool, end: nat, done: Body, from: nat, next: seq<Clip>,
                                block: Block)
    requires LinesExtended(opening, source, start, previous, clips, base, fence, closed, end, done, from, next)
    requires opening.start < opening.contentStart && (!closed ==> end == |source|)
    requires closed ==> ContentRange(Range(opening.start, end), source).end < end
    requires block.kind.Code? && block.kind.code.source == block.source
    requires block.source.bytes == Range(opening.start, end) && block.kind.code.body == AimLines(done, base, from)
    ensures NodesWithin(block, source) && (closed ==> NodesBeforeEnd(block))
  {
    hide NodesFromLine, TrackedBody, ScratchBody, Scanned, ClipsValid, NextClips, SameLines, ContentRange;
    var body := block.kind.code.body;
    if closed {
      ScratchLinesAscend(opening.start, end, source, base);
    } else {
      TrackedLinesAscend(fence, source, next, base);
    }
    CodeFromLine(block, source);
    CodeBlockNodes(block);
  }

  /** Replacing the last block by a longer one that starts in the same place. */
  lemma LayoutExtended(before: seq<Block>, previous: Block, block: Block, source: Source, more: Source, end: nat)
    requires TailLayout(before + [previous], source, end)
    requires block.source.bytes.start == previous.source.bytes.start < block.source.bytes.end <= |source + more|
    requires NodesWithin(block, source + more)
    ensures TailLayout(before + [block], source + more, end)
  {
    hide LineStart, InOrder, NodesFromLine, NodesBeforeEnd;
    var a, b := before + [previous], before + [block];
    EarlierNodesEnd(before, previous, source, end);
    forall i | 0 <= i < |b|
      ensures OrderedAt(b, source + more, end, i) && NodesWithin(b[i], source + more)
    {
      OrderAt(a, source, end, i);
      assert i > 0 ==> b[i - 1] == a[i - 1];
      if i < |before| {
        assert b[i] == a[i] == before[i];
        FromLineStable(b[i], source, more);
      }
    }
    OrderedEverywhere(b, source + more, end);
  }

  /** Every block but the last ends before the end of the source, so its nodes start before its end. */
  lemma EarlierNodesEnd(before: seq<Block>, last: Block, source: Source, end: nat)
    requires TailLayout(before + [last], source, end)
    ensures forall i :: 0 <= i < |before| ==> NodesFromLine(before[i], source) && NodesBeforeEnd(before[i])
  {
    hide InOrder, NodesFromLine, NodesBeforeEnd;
    var blocks := before + [last];
    forall i | 0 <= i < |before|
      ensures NodesFromLine(before[i], source) && NodesBeforeEnd(before[i])
    {
      OrderAt(blocks, source, end, i + 1);
      assert NodesWithin(blocks[i], source);
    }
  }
}
