/**
 What the incremental document keeps about the blocks it will not parse again, stated on values:
 where blocks lie in the source, how their targets are numbered, which reference definitions were
 seen. The class in `Incremental` keeps these predicates true.
 */
module Settling {
  import opened Bytes
  import opened LineIndexing
  import opened FenceLines
  import opened CodeBlocks
  import opened OpenFences
  import opened Targets

  datatype Definition = Definition(destination: Source, title: Option<Source>)

  /** What one parse of the tail yields. */
  datatype Parsed = Parsed(
    blocks: seq<Block>,
    definitions: map<Source, Definition>,
    tailDefinitions: seq<Range>)

  /** The Markdown parser, and the conversion of its events to blocks, as a function of the source,
      the offset to start at and the definitions put before the tail. */
  type Parser = (Source, nat, Source) -> Parsed

  datatype Settled = Settled(
    blocks: nat,
    targets: nat,
    outline: nat,
    sourceEnd: nat,
    brackets: seq<bool>,
    definitions: seq<Range>,
    prefix: Source)

  const UNSETTLED: Settled := Settled(0, 0, 0, 0, [], [], [])

  /** The start of the line holding `offset`. */
  function LineStart(source: Source, offset: nat): (r: nat)
    requires offset <= |source|
    ensures r <= offset
  {
    SplitLast(source[..offset]);
    offset - |LastPiece(source[..offset])|
  }

  lemma LineStartStable(source: Source, more: Source, offset: nat)
    requires offset <= |source|
    ensures LineStart(source + more, offset) == LineStart(source, offset)
  {
    assert (source + more)[..offset] == source[..offset];
  }

  /** Nothing but line content lies between the start of a line and an offset in it. */
  lemma LineStartShape(source: Source, offset: nat)
    requires offset <= |source|
    ensures LineStart(source, offset) == 0 || source[LineStart(source, offset) - 1] == LF
    ensures LF !in source[LineStart(source, offset)..offset]
  {
    SplitLast(source[..offset]);
    assert source[..offset][LineStart(source, offset)..] == source[LineStart(source, offset)..offset];
  }

  lemma LineStartMonotone(source: Source, a: nat, b: nat)
    requires a <= b <= |source|
    ensures LineStart(source, a) <= LineStart(source, b)
  {
    LineStartShape(source, a);
    LineStartShape(source, b);
    var k := LineStart(source, a);
    if k > LineStart(source, b) {
      SliceWithout(source, LineStart(source, b), b, LF);
      assert false;
    }
  }

  lemma LineStartIs(source: Source, at: nat)
    requires at <= |source| && (at == 0 || source[at - 1] == LF)
    ensures LineStart(source, at) == at
  {
    hide LineStart;
    LineStartShape(source, at);
    SliceWithout(source, LineStart(source, at), at, LF);
  }

  predicate IsBlank(b: byte) { b == SPACE || b == TAB || b == VT || b == FF }

  /** Only blanks between `position` and the end of its line, which has a terminator. */
  ghost predicate BlankLine(source: Source, position: nat) {
    exists k :: position <= k < |source| && (source[k] == LF || source[k] == CR)
                && forall j :: position <= j < k ==> IsBlank(source[j])
  }

  // ---- where blocks lie ----------------------------------------------------

  /** No commentable node starts on an earlier line than one before it. */
  ghost predicate NodesAscend(nodes: seq<Node>, source: Source) {
    && (forall i :: 0 <= i < |nodes| ==> nodes[i].source.bytes.start <= |source|)
    && (forall i, j :: 0 <= i < j < |nodes| ==>
                         LineStart(source, nodes[i].source.bytes.start) <= nodes[j].source.bytes.start)
  }

  /** Commentable nodes start on the first line of their block or later, line by line; a line of an indented
      code block is the whole source line, indentation included. */
  ghost predicate NodesFromLine(block: Block, source: Source) {
    && block.source.bytes.start <= |source| && NodesAscend(NodesOf(block), source)
    && forall n :: n in NodesOf(block) ==> LineStart(source, block.source.bytes.start) <= n.source.bytes.start
  }

  /** Commentable nodes start before their block ends. */
  ghost predicate NodesBeforeEnd(block: Block) {
    forall n :: n in NodesOf(block) ==> n.source.bytes.start < block.source.bytes.end
  }

  /** Only in a code block that runs to the end of the source may a line start right at the end. */
  ghost predicate NodesWithin(block: Block, source: Source) {
    NodesFromLine(block, source) && (NodesBeforeEnd(block) || (block.kind.Code? && block.source.bytes.end == |source|))
  }

  /** Where block `i` may start at the earliest. */
  ghost function EndBefore(blocks: seq<Block>, i: nat, from: nat): nat
    requires i <= |blocks|
  {
    if i == 0 then from else blocks[i - 1].source.bytes.end
  }

  ghost predicate InBounds(blocks: seq<Block>, source: Source) {
    forall i :: 0 <= i < |blocks| ==> blocks[i].source.bytes.start < blocks[i].source.bytes.end <= |source|
  }

  /** Blocks are non-empty and in order. Two of them may share a line: a carriage return ends a block, but
      lines are counted at line feeds. */
  ghost predicate InOrder(blocks: seq<Block>, source: Source, from: nat) {
    forall i :: 0 <= i < |blocks| ==>
                  && blocks[i].source.bytes.start < blocks[i].source.bytes.end <= |source|
                  && EndBefore(blocks, i, from) <= blocks[i].source.bytes.start
  }

  /** Settled blocks lie before `end`. */
  ghost predicate SettledLayout(blocks: seq<Block>, source: Source, end: nat) {
    && end <= |source| && InOrder(blocks, source, 0)
    && (forall i :: 0 <= i < |blocks| ==>
                      NodesFromLine(blocks[i], source) && NodesBeforeEnd(blocks[i])
                          && blocks[i].source.bytes.end <= end)
  }

  /** Blocks still subject to parsing lie at or after `end`. */
  ghost predicate TailLayout(blocks: seq<Block>, source: Source, end: nat) {
    InOrder(blocks, source, end) && forall i :: 0 <= i < |blocks| ==> NodesWithin(blocks[i], source)
  }

  /** What is not settled starts on a line of its own. */
  ghost predicate Apart(tail: seq<Block>, source: Source, end: nat) {
    tail != [] ==> tail[0].source.bytes.start <= |source| && end <= LineStart(source, tail[0].source.bytes.start)
  }

  /** An offset the document resumes parsing at: where a line starts, also after a lone carriage return, or
      where only blanks are left of one. */
  ghost predicate Resumable(source: Source, start: nat) {
    && start <= |source|
    && (start == 0 || source[start - 1] == LF || source[start - 1] == CR || BlankLine(source, start))
  }

  lemma ResumableStable(source: Source, more: Source, start: nat)
    requires Resumable(source, start)
    ensures Resumable(source + more, start)
  {
    if BlankLine(source, start) {
      var k :| start <= k < |source| && (source[k] == LF || source[k] == CR) && forall j :: start <= j < k ==>
          IsBlank(source[j]);
      assert (source + more)[k] == source[k];
      assert BlankLine(source + more, start);
    }
  }

  /** A fenced code block as the parser's conversion builds it. A closed one ends where a line does. */
  ghost predicate FreshFence(block: Block, source: Source)
    requires block.source.bytes.start <= block.source.bytes.end <= |source|
  {
    block.kind.Code? && block.kind.code.info.Some? ==>
      var bytes, code := block.source.bytes, block.kind.code;
      && block.source == SourceRangeOf(bytes, source) == code.source
      && code.content == SourceRangeOf(ContentRange(bytes, source), source)
      && code.body == FencedBody(ContentRange(bytes, source), source)
      && ClosedOrScannable(bytes, source) && EndsItsLine(bytes, source)
  }

  ghost predicate EndsItsLine(bytes: Range, source: Source) {
    bytes.end < |source| ==> source[bytes.end] == LF || source[bytes.end] == CR
  }

  ghost predicate WellParsed(parsed: Parsed, source: Source, start: nat) {
    && TailLayout(parsed.blocks, source, start)
    && (forall i :: 0 <= i < |parsed.blocks| ==> FreshFence(parsed.blocks[i], source))
    && (forall i :: 0 <= i < |parsed.tailDefinitions| ==>
                      parsed.tailDefinitions[i].start <= parsed.tailDefinitions[i].end <= |source|)
  }

  /** The only thing assumed of the parser: started where the document resumes, with definitions from before that
      offset put before the tail, it returns blocks in order, at or after that offset, whose nodes start on the
      block's first line or later, line by line; it treats fences as this crate does. */
  ghost predicate ParserContract(parse: Parser) {
    forall source, start: nat, spans :: Resumable(source, start) && SpansWithin(spans, start) ==>
        WellParsed(parse(source, start, PrefixOf(spans, source)), source, start)
  }

  /** `a` settled and `b` not: together they are in order. */
  lemma InOrderConcat(a: seq<Block>, b: seq<Block>, source: Source, end: nat)
    requires SettledLayout(a, source, end) && InOrder(b, source, end)
    ensures InOrder(a + b, source, 0)
  {
    hide NodesFromLine, NodesBeforeEnd;
    forall i | 0 <= i < |a + b|
      ensures var x := (a + b)[i];
              && x.source.bytes.start < x.source.bytes.end <= |source|
              && EndBefore(a + b, i, 0) <= x.source.bytes.start
    {
      if i < |a| {
        assert (a + b)[i] == a[i] && EndBefore(a + b, i, 0) == EndBefore(a, i, 0);
      } else {
        assert (a + b)[i] == b[i - |a|] && EndBefore(a + b, i, 0) <= EndBefore(b, i - |a|, end);
      }
    }
  }

  // ---- counting targets by position ----------------------------------------

  ghost predicate StartBefore(nodes: seq<Node>, end: nat) {
    forall n :: n in nodes ==> n.source.bytes.start < end
  }

  ghost predicate StartFrom(nodes: seq<Node>, end: nat) {
    forall n :: n in nodes ==> end <= n.source.bytes.start
  }

  lemma LayoutPrefix(blocks: seq<Block>, k: nat, source: Source, end: nat)
    requires k <= |blocks|
    ensures InOrder(blocks, source, end) ==> InOrder(blocks[..k], source, end)
    ensures SettledLayout(blocks, source, end) ==> SettledLayout(blocks[..k], source, end)
    ensures TailLayout(blocks, source, end) ==> TailLayout(blocks[..k], source, end)
  {
    forall i | 0 <= i < k
      ensures blocks[..k][i] == blocks[i]
      ensures forall from :: EndBefore(blocks[..k], i, from) == EndBefore(blocks, i, from)
    {
    }
  }

  lemma {:induction false} SettledNodesBefore(blocks: seq<Block>, source: Source, end: nat)
    requires SettledLayout(blocks, source, end)
    ensures StartBefore(Nodes(blocks), end)
  {
    hide NodesOf, LineStart, NodesFromLine;
    if blocks != [] {
      var init, last := blocks[..|blocks| - 1], blocks[|blocks| - 1];
      LayoutPrefix(blocks, |init|, source, end);
      SettledNodesBefore(init, source, end);
      assert NodesBeforeEnd(last);
    }
  }

  lemma {:induction false} StartsAscend(blocks: seq<Block>, source: Source, end: nat, i: nat)
    requires InOrder(blocks, source, end) && i < |blocks|
    ensures end <= blocks[0].source.bytes.start <= blocks[i].source.bytes.start <= |source|
  {
    hide InOrder;
    OrderAt(blocks, source, end, i);
    if i > 0 {
      OrderAt(blocks, source, end, i - 1);
      StartsAscend(blocks, source, end, i - 1);
    }
  }

  lemma OrderAt(blocks: seq<Block>, source: Source, from: nat, i: nat)
    requires InOrder(blocks, source, from) && i < |blocks|
    ensures OrderedAt(blocks, source, from, i)
  {
    assert EndBefore(blocks, i, from) <= blocks[i].source.bytes.start;
  }

  /** The nodes of blocks in order start no earlier than the line of the first block. */
  lemma {:induction false} TailNodesFrom(blocks: seq<Block>, source: Source, end: nat)
    requires TailLayout(blocks, source, end) && blocks != []
    ensures blocks[0].source.bytes.start <= |source|
    ensures StartFrom(Nodes(blocks), LineStart(source, blocks[0].source.bytes.start))
  {
    hide NodesOf, LineStart, NodesBeforeEnd, Nodes, StartFrom, NodesFromLine, InOrder;
    var n := |blocks| - 1;
    StartsAscend(blocks, source, end, n);
    assert NodesWithin(blocks[n], source);
    assert blocks == blocks[..n] + [blocks[n]];
    NodesPush(blocks[..n], blocks[n]);
    if n == 0 {
      NoNodes();
      NothingFrom(LineStart(source, blocks[0].source.bytes.start));
    } else {
      LayoutPrefix(blocks, n, source, end);
      TailNodesFrom(blocks[..n], source, end);
    }
    JoinFrom(Nodes(blocks[..n]), blocks[n], source, blocks[0].source.bytes.start);
  }

  lemma NothingFrom(end: nat)
    ensures StartFrom([], end)
  {
  }

  lemma JoinFrom(nodes: seq<Node>, last: Block, source: Source, first: nat)
    requires first <= last.source.bytes.start && NodesFromLine(last, source)
    requires StartFrom(nodes, LineStart(source, first))
    ensures StartFrom(nodes + NodesOf(last), LineStart(source, first))
  {
    hide NodesOf, LineStart;
    LineStartMonotone(source, first, last.source.bytes.start);
  }

  // ---- nodes line by line ----------------------------------------------------

  lemma AscendStable(nodes: seq<Node>, source: Source, more: Source)
    requires NodesAscend(nodes, source)
    ensures NodesAscend(nodes, source + more)
  {
    hide LineStart;
    forall i | 0 <= i < |nodes|
      ensures LineStart(source + more, nodes[i].source.bytes.start) == LineStart(source, nodes[i].source.bytes.start)
    {
      LineStartStable(source, more, nodes[i].source.bytes.start);
    }
  }

  lemma FromLineStable(block: Block, source: Source, more: Source)
    requires NodesFromLine(block, source)
    ensures NodesFromLine(block, source + more)
  {
    hide LineStart, NodesOf, NodesAscend;
    LineStartStable(source, more, block.source.bytes.start);
    AscendStable(NodesOf(block), source, more);
  }

  lemma AscendPrefix(nodes: seq<Node>, more: seq<Node>, source: Source)
    requires NodesAscend(nodes + more, source)
    ensures NodesAscend(nodes, source)
  {
    hide LineStart;
    assert forall i :: 0 <= i < |nodes| ==> (nodes + more)[i] == nodes[i];
  }

  /** Nodes that start before an offset, and then nodes from the line of that offset on. */
  lemma AscendConcat(a: seq<Node>, b: seq<Node>, source: Source, at: nat)
    requires NodesAscend(a, source) && NodesAscend(b, source) && at <= |source|
    requires StartBefore(a, at) && StartFrom(b, LineStart(source, at))
    ensures NodesAscend(a + b, source)
  {
    hide LineStart;
    forall i | 0 <= i < |a|
      ensures LineStart(source, a[i].source.bytes.start) <= LineStart(source, at)
    {
      assert a[i] in a;
      LineStartMonotone(source, a[i].source.bytes.start, at);
    }
    forall j | 0 <= j < |b|
      ensures LineStart(source, at) <= b[j].source.bytes.start
    {
      assert b[j] in b;
    }
  }

  /** The nodes of blocks in order start before the last block does. */
  lemma {:induction false} NodesBeforeLast(before: seq<Block>, last: Block, source: Source, end: nat)
    requires TailLayout(before + [last], source, end)
    ensures StartBefore(Nodes(before), last.source.bytes.start)
  {
    hide NodesOf, LineStart, NodesFromLine, NodesAscend, InOrder;
    if before == [] {
      NoNodes();
    } else {
      var k := |before| - 1;
      var blocks, x := before + [last], before[k];
      OrderAt(blocks, source, end, k + 1);
      assert NodesWithin(blocks[k], source);
      LayoutPrefix(blocks, k + 1, source, end);
      assert blocks[..k + 1] == before == before[..k] + [x];
      NodesBeforeLast(before[..k], x, source, end);
      OrderAt(blocks, source, end, k);
      NodesPush(before[..k], x);
    }
  }

  lemma {:induction false} TailAscends(blocks: seq<Block>, source: Source, end: nat)
    requires TailLayout(blocks, source, end)
    ensures NodesAscend(Nodes(blocks), source)
  {
    hide NodesOf, LineStart, NodesFromLine, NodesAscend, NodesBeforeEnd, InOrder, StartBefore;
    if blocks == [] {
      NoNodes();
      NothingAscends(source);
    } else {
      var k := |blocks| - 1;
      var last := blocks[k];
      assert blocks == blocks[..k] + [last] && NodesWithin(last, source);
      LayoutPrefix(blocks, k, source, end);
      TailAscends(blocks[..k], source, end);
      NodesBeforeLast(blocks[..k], last, source, end);
      NodesPush(blocks[..k], last);
      OrderAt(blocks, source, end, k);
      OwnNodes(last, source);
      AscendConcat(Nodes(blocks[..k]), NodesOf(last), source, last.source.bytes.start);
    }
  }

  lemma NothingAscends(source: Source)
    ensures NodesAscend([], source)
  {
  }

  lemma OwnNodes(block: Block, source: Source)
    requires NodesFromLine(block, source)
    ensures NodesAscend(NodesOf(block), source)
    ensures StartFrom(NodesOf(block), LineStart(source, block.source.bytes.start))
  {
    hide NodesOf, LineStart, NodesAscend;
  }

  // ---- blocks line by line ---------------------------------------------------

  /** No block starts on an earlier line than one before it, and none behind the line of `end`. Unlike
      `SettledLayout`, blocks may overlap and reach beyond `end`. */
  ghost predicate InLines(blocks: seq<Block>, source: Source, end: nat) {
    && end <= |source|
    && (forall i :: 0 <= i < |blocks| ==> blocks[i].source.bytes.start <= |source| && NodesFromLine(blocks[i], source))
    && (forall i :: 0 <= i < |blocks| ==> LineStart(source, blocks[i].source.bytes.start) <= LineStart(source, end))
    && (forall i, j :: 0 <= i < j < |blocks| ==>
                         LineStart(source, blocks[i].source.bytes.start)
                         <= LineStart(source, blocks[j].source.bytes.start))
  }

  lemma InLinesStable(blocks: seq<Block>, source: Source, more: Source, end: nat)
    requires InLines(blocks, source, end)
    ensures InLines(blocks, source + more, end)
  {
    hide LineStart, NodesOf, NodesFromLine;
    LineStartStable(source, more, end);
    forall i | 0 <= i < |blocks|
      ensures LineStart(source + more, blocks[i].source.bytes.start) == LineStart(source, blocks[i].source.bytes.start)
      ensures NodesFromLine(blocks[i], source + more)
    {
      FromLineStable(blocks[i], source, more);
      LineStartStable(source, more, blocks[i].source.bytes.start);
    }
  }

  lemma InLinesGrows(settled: seq<Block>, block: Block, source: Source, end: nat, boundary: nat)
    requires InLines(settled, source, end) && NodesFromLine(block, source)
    requires end <= block.source.bytes.start <= boundary <= |source|
    ensures InLines(settled + [block], source, boundary)
  {
    hide LineStart, NodesFromLine;
    LineStartMonotone(source, end, block.source.bytes.start);
    LineStartMonotone(source, block.source.bytes.start, boundary);
  }

  /** What stays when the document goes back to `back`, which is not inside block `b - 1` or is the start of
      block `b`'s line. */
  lemma InLinesRetreat(blocks: seq<Block>, source: Source, end: nat, b: nat, back: nat)
    requires InLines(blocks, source, end) && b < |blocks| && blocks[b].source.bytes.start <= |source|
    requires back <= |source| && LineStart(source, back) == back
    requires back == LineStart(source, blocks[b].source.bytes.start)
             || (b > 0 ==> blocks[b - 1].source.bytes.start <= back)
    ensures InLines(blocks[..b], source, back)
  {
    hide LineStart, NodesFromLine;
    if b > 0 && blocks[b - 1].source.bytes.start <= back {
      LineStartMonotone(source, blocks[b - 1].source.bytes.start, back);
    }
  }

  lemma {:induction false} NodesFrom(blocks: seq<Block>, source: Source, from: nat)
    requires forall i :: 0 <= i < |blocks| ==>
                           NodesFromLine(blocks[i], source)
                           && from <= LineStart(source, blocks[i].source.bytes.start)
    ensures StartFrom(Nodes(blocks), from)
  {
    hide NodesOf, LineStart;
    if blocks != [] {
      var k := |blocks| - 1;
      assert blocks == blocks[..k] + [blocks[k]];
      NodesFrom(blocks[..k], source, from);
    }
  }

  /** Nothing from block `b` on starts before that block's line. */
  lemma RestFrom(blocks: seq<Block>, n: nat, source: Source, end: nat, b: nat, back: nat)
    requires b < n <= |blocks| && InLines(blocks[..n], source, end) && TailLayout(blocks[n..], source, end)
    requires blocks[b].source.bytes.start <= |source| && back <= LineStart(source, blocks[b].source.bytes.start)
    ensures StartFrom(Nodes(blocks[b..]), back)
  {
    hide LineStart, NodesOf, NodesBeforeEnd, NodesAscend, InOrder, NodesFromLine, Nodes;
    var settled, tail := blocks[..n], blocks[n..];
    assert settled[b] == blocks[b] && settled[b..] + tail == blocks[b..];
    SettledFromLine(settled, source, end, b, back);
    forall i | 0 <= i < |tail|
      ensures NodesFromLine(tail[i], source) && tail[i].source.bytes.start <= |source|
      ensures back <= LineStart(source, tail[i].source.bytes.start)
    {
      assert NodesWithin(tail[i], source);
      StartsAscend(tail, source, end, i);
      LineStartMonotone(source, end, tail[i].source.bytes.start);
    }
    NodesFrom(tail, source, back);
    NodesConcat(settled[b..], tail);
  }

  lemma SettledFromLine(settled: seq<Block>, source: Source, end: nat, b: nat, back: nat)
    requires b < |settled| && InLines(settled, source, end)
    requires settled[b].source.bytes.start <= |source| && back <= LineStart(source, settled[b].source.bytes.start)
    ensures StartFrom(Nodes(settled[b..]), back)
  {
    hide LineStart, NodesOf, Nodes, NodesFromLine;
    forall i | 0 <= i < |settled[b..]|
      ensures NodesFromLine(settled[b..][i], source)
      ensures settled[b..][i].source.bytes.start <= |source|
              && back <= LineStart(source, settled[b..][i].source.bytes.start)
    {
      assert settled[b..][i] == settled[b + i];
    }
    NodesFrom(settled[b..], source, back);
  }

  /** `partition_point` of the targets that start before `end`. */
  function TargetsBefore(targets: seq<Target>, end: nat): (r: nat)
    ensures r <= |targets| && (r > 0 ==> targets[r - 1].source.bytes.start < end)
    ensures forall i :: r <= i < |targets| ==> end <= targets[i].source.bytes.start
  {
    if targets == [] then 0
    else if targets[|targets| - 1].source.bytes.start < end then |targets|
    else TargetsBefore(targets[..|targets| - 1], end)
  }

  function HeadingsBefore(outline: seq<OutlineEntry>, end: nat): (r: nat)
    ensures r <= |outline|
  {
    if outline == [] then 0
    else if outline[|outline| - 1].source.bytes.start < end then |outline|
    else HeadingsBefore(outline[..|outline| - 1], end)
  }

  lemma {:induction false} TargetsBeforeSplit(a: seq<Target>, b: seq<Target>, end: nat)
    requires forall i :: 0 <= i < |a| ==> a[i].source.bytes.start < end
    requires forall i :: 0 <= i < |b| ==> end <= b[i].source.bytes.start
    ensures TargetsBefore(a + b, end) == |a|
    decreases |b|
  {
    if b == [] {
      assert a + b == a;
    } else {
      assert (a + b)[..|a + b| - 1] == a + b[..|b| - 1];
      TargetsBeforeSplit(a, b[..|b| - 1], end);
    }
  }

  lemma {:induction false} HeadingsBeforeSplit(a: seq<OutlineEntry>, b: seq<OutlineEntry>, end: nat)
    requires forall i :: 0 <= i < |a| ==> a[i].source.bytes.start < end
    requires forall i :: 0 <= i < |b| ==> end <= b[i].source.bytes.start
    ensures HeadingsBefore(a + b, end) == |a|
    decreases |b|
  {
    if b == [] {
      assert a + b == a;
    } else {
      assert (a + b)[..|a + b| - 1] == a + b[..|b| - 1];
      HeadingsBeforeSplit(a, b[..|b| - 1], end);
    }
  }

  /** Targets and outline belong to exactly these blocks. */
  ghost predicate Numbering(blocks: seq<Block>, targets: seq<Target>, outline: seq<OutlineEntry>) {
    TargetsMatch(blocks, targets) && outline == Headings(blocks)
  }

  /** Every heading of the outline is a commentable node. */
  ghost predicate HasNodeAt(nodes: seq<Node>, source: SourceRange) {
    exists n :: n in nodes && n.source == source
  }

  lemma {:induction false} HeadingsAreNodes(blocks: seq<Block>)
    ensures forall h :: h in Headings(blocks) ==> HasNodeAt(Nodes(blocks), h.source)
  {
    if blocks != [] {
      var init, last := blocks[..|blocks| - 1], blocks[|blocks| - 1];
      HeadingsAreNodes(init);
      forall h | h in Headings(blocks)
        ensures HasNodeAt(Nodes(blocks), h.source)
      {
        if h in Headings(init) {
          var n :| n in Nodes(init) && n.source == h.source;
          assert n in Nodes(blocks);
        } else {
          assert h in HeadingOf(last);
          assert NodesOf(last)[0] in Nodes(blocks);
        }
      }
    }
  }

  /** Cutting the numbered document between blocks, by source position, cuts targets and outline at
      the same place. */
  lemma NumberingCut(a: seq<Block>, b: seq<Block>, targets: seq<Target>, outline: seq<OutlineEntry>, end: nat)
    requires Numbering(a + b, targets, outline)
    requires StartBefore(Nodes(a), end) && StartFrom(Nodes(b), end)
    ensures var t, o := TargetsBefore(targets, end), HeadingsBefore(outline, end);
            && t == |Nodes(a)| && o == |Headings(a)|
            && Numbering(a, targets[..t], outline[..o])
  {
    hide Nodes, Headings, TargetsMatch;
    TargetsCut(a, b, targets, end);
    OutlineCut(a, b, end);
    assert outline[..|Headings(a)|] == Headings(a);
  }

  /** When some node before the cut does not start before the start of a line, while all behind it do not either,
      fewer targets are counted than there are nodes. */
  lemma CountFallsShort(a: seq<Block>, b: seq<Block>, targets: seq<Target>, source: Source, end: nat)
    requires TargetsMatch(a + b, targets) && NodesAscend(Nodes(a + b), source)
    requires end <= |source| && LineStart(source, end) == end
    requires StartFrom(Nodes(b), end) && !StartBefore(Nodes(a), end)
    ensures TargetsBefore(targets, end) < |Nodes(a)|
  {
    hide Nodes, LineStart, NodesAscend, StartBefore, StartFrom, Numbered, TargetsOf;
    NodesConcat(a, b);
    LaterStays(Nodes(a), Nodes(b), targets, source, end);
  }

  lemma LaterStays(a: seq<Node>, b: seq<Node>, targets: seq<Target>, source: Source, end: nat)
    requires targets == TargetsOf(a + b, 0) && NodesAscend(a + b, source)
    requires end <= |source| && LineStart(source, end) == end
    requires StartFrom(b, end) && !StartBefore(a, end)
    ensures TargetsBefore(targets, end) < |a|
  {
    hide LineStart, TargetsBefore;
    var n :| n in a && end <= n.source.bytes.start;
    var i :| 0 <= i < |a| && a[i] == n;
    assert (a + b)[i] == n;
    LineStartMonotone(source, end, n.source.bytes.start);
    var t := TargetsBefore(targets, end);
    if t >= |a| {
      TargetAt(a + b, targets, t - 1);
      assert false;
    }
  }

  /** A search by position cuts a list only where everything before `end` comes first. */
  ghost predicate IsCut(targets: seq<Target>, t: nat, end: nat) {
    t <= |targets| && forall i :: 0 <= i < |targets| ==> (targets[i].source.bytes.start < end <==> i < t)
  }

  /** The targets of nodes that ascend line by line are cut at the start of any line. */
  lemma CutAtLineStart(nodes: seq<Node>, targets: seq<Target>, source: Source, end: nat)
    requires targets == TargetsOf(nodes, 0) && NodesAscend(nodes, source)
    requires end <= |source| && LineStart(source, end) == end
    ensures IsCut(targets, TargetsBefore(targets, end), end)
  {
    hide LineStart, TargetsBefore;
    var t := TargetsBefore(targets, end);
    forall i | 0 <= i < t
      ensures targets[i].source.bytes.start < end
    {
      TargetAt(nodes, targets, i);
      TargetAt(nodes, targets, t - 1);
      LineBefore(source, nodes[i].source.bytes.start, end);
    }
  }

  lemma LineBefore(source: Source, at: nat, end: nat)
    requires at <= |source| && end <= |source| && LineStart(source, end) == end && LineStart(source, at) < end
    ensures at < end
  {
    if end <= at {
      LineStartMonotone(source, end, at);
    }
  }

  lemma TargetAt(nodes: seq<Node>, targets: seq<Target>, i: nat)
    requires targets == TargetsOf(nodes, 0) && i < |targets|
    ensures i < |nodes| && targets[i].source == nodes[i].source
  {
  }

  lemma TargetsCut(a: seq<Block>, b: seq<Block>, targets: seq<Target>, end: nat)
    requires TargetsMatch(a + b, targets)
    requires StartBefore(Nodes(a), end) && StartFrom(Nodes(b), end)
    ensures TargetsBefore(targets, end) == |Nodes(a)|
    ensures TargetsMatch(a, targets[..|Nodes(a)|])
  {
    hide Nodes, Numbered, TargetsOf, TargetsBefore, StartBefore, StartFrom;
    NodesConcat(a, b);
    NodesCut(Nodes(a), Nodes(b), targets, end);
  }

  lemma NodesCut(a: seq<Node>, b: seq<Node>, targets: seq<Target>, end: nat)
    requires targets == TargetsOf(a + b, 0) && a + b == Numbered(a + b, 0)
    requires StartBefore(a, end) && StartFrom(b, end)
    ensures TargetsBefore(targets, end) == |a|
    ensures targets[..|a|] == TargetsOf(a, 0) && a == Numbered(a, 0)
  {
    NumberedConcat(a, b, 0);
    TargetsBeforeSplit(TargetsOf(a, 0), TargetsOf(b, |a|), end);
    forall i | 0 <= i < |a|
      ensures a[i] == Numbered(a, 0)[i]
    {
      assert a[i] == (a + b)[i] == Numbered(a + b, 0)[i];
    }
  }

  lemma OutlineCut(a: seq<Block>, b: seq<Block>, end: nat)
    requires StartBefore(Nodes(a), end) && StartFrom(Nodes(b), end)
    ensures Headings(a + b) == Headings(a) + Headings(b)
    ensures HeadingsBefore(Headings(a + b), end) == |Headings(a)|
  {
    hide Nodes, Headings;
    HeadingsConcat(a, b);
    HeadingsAreNodes(a);
    HeadingsAreNodes(b);
    assert forall h :: h in Headings(a) ==> HasNodeAt(Nodes(a), h.source) && h.source.bytes.start < end;
    assert forall h :: h in Headings(b) ==> HasNodeAt(Nodes(b), h.source) && end <= h.source.bytes.start;
    HeadingsBeforeSplit(Headings(a), Headings(b), end);
  }

  /** Numbering freshly parsed blocks after the settled ones numbers the whole document. */
  lemma NumberingJoin(a: seq<Block>, b: seq<Block>, done: seq<Block>, targets: seq<Target>, outline: seq<OutlineEntry>)
    requires Numbering(a, targets, outline) && AssignedFrom(b, done, |targets|)
    ensures Numbering(a + done, targets + TargetsOf(Nodes(b), |targets|), outline + Headings(done))
  {
    hide Nodes, Headings, SameBlock;
    NodesConcat(a, done);
    HeadingsConcat(a, done);
    NumberedConcat(Nodes(a), Nodes(done), 0);
    assert Numbered(Nodes(done), |Nodes(a)|) == Nodes(done);
    assert TargetsOf(Nodes(done), |Nodes(a)|) == TargetsOf(Nodes(b), |Nodes(a)|);
  }

  // ---- brackets and definitions --------------------------------------------

  /** Whether a settled block could be changed by a later reference definition. */
  ghost predicate HasBracket(block: Block, source: Source) {
    && !block.kind.Code?
    && block.source.bytes.start <= block.source.bytes.end <= |source|
    && BRACKET in source[block.source.bytes.start..block.source.bytes.end]
  }

  ghost predicate BracketsMatch(brackets: seq<bool>, blocks: seq<Block>, source: Source) {
    && |brackets| == |blocks|
    && forall i :: 0 <= i < |blocks| ==> (brackets[i] <==> HasBracket(blocks[i], source))
  }

  ghost predicate SpansWithin(spans: seq<Range>, end: nat) {
    forall i :: 0 <= i < |spans| ==> spans[i].start <= spans[i].end <= end
  }

  /** The definition spans, each followed by a line feed. */
  ghost function PrefixOf(spans: seq<Range>, source: Source): Source
    requires SpansWithin(spans, |source|)
  {
    if spans == [] then []
    else PrefixOf(spans[..|spans| - 1], source) + source[spans[|spans| - 1].start..spans[|spans| - 1].end] + [LF]
  }

  ghost predicate DefinitionsMatch(settled: Settled, source: Source) {
    && settled.sourceEnd <= |source| && SpansWithin(settled.definitions, settled.sourceEnd)
    && settled.prefix == PrefixOf(settled.definitions, source)
  }

  lemma {:induction false} PrefixStable(spans: seq<Range>, source: Source, more: Source)
    requires SpansWithin(spans, |source|)
    ensures PrefixOf(spans, source + more) == PrefixOf(spans, source)
  {
    if spans != [] {
      PrefixStable(spans[..|spans| - 1], source, more);
      var last := spans[|spans| - 1];
      assert (source + more)[last.start..last.end] == source[last.start..last.end];
    }
  }

  lemma BracketsStable(brackets: seq<bool>, blocks: seq<Block>, source: Source, more: Source)
    requires BracketsMatch(brackets, blocks, source) && InBounds(blocks, source)
    ensures BracketsMatch(brackets, blocks, source + more)
  {
    forall i | 0 <= i < |blocks|
      ensures HasBracket(blocks[i], source + more) <==> HasBracket(blocks[i], source)
    {
      var b := blocks[i].source.bytes;
      assert (source + more)[b.start..b.end] == source[b.start..b.end];
    }
  }

  // ---- the whole document --------------------------------------------------

  ghost predicate DocLayout(blocks: seq<Block>, n: nat, source: Source, end: nat) {
    n <= |blocks| && SettledLayout(blocks[..n], source, end) && TailLayout(blocks[n..], source, end)
  }

  /** Settling one more block up to `boundary`. */
  lemma LayoutAdvance(blocks: seq<Block>, n: nat, source: Source, end: nat, boundary: nat)
    requires DocLayout(blocks, n, source, end) && n < |blocks|
    requires blocks[n].source.bytes.end <= boundary <= |source| && NodesBeforeEnd(blocks[n])
    requires n + 1 < |blocks| ==> boundary <= blocks[n + 1].source.bytes.start
    ensures DocLayout(blocks, n + 1, source, boundary) && end <= boundary
  {
    hide InOrder, NodesBeforeEnd, NodesWithin, SettledLayout, TailLayout;
    var settled, tail := blocks[..n], blocks[n..];
    assert blocks[..n + 1] == settled + [tail[0]] && blocks[n + 1..] == tail[1..];
    SettledGrows(settled, tail[0], tail, source, end, boundary);
    TailShrinks(tail, source, end, boundary);
  }

  lemma SettledGrows(settled: seq<Block>, block: Block, tail: seq<Block>, source: Source, end: nat, boundary: nat)
    requires SettledLayout(settled, source, end) && TailLayout(tail, source, end) && tail != [] && block == tail[0]
    requires block.source.bytes.end <= boundary <= |source| && NodesBeforeEnd(block)
    ensures SettledLayout(settled + [block], source, boundary) && end <= boundary
  {
    hide NodesOf, LineStart, NodesBeforeEnd, NodesFromLine;
    assert EndBefore(tail, 0, end) == end;
    assert NodesWithin(block, source);
    var all := settled + [block];
    forall i | 0 <= i < |all|
      ensures EndBefore(all, i, 0) <= all[i].source.bytes.start
    {
      if i < |settled| {
        assert EndBefore(all, i, 0) == EndBefore(settled, i, 0);
      }
    }
  }

  lemma TailShrinks(tail: seq<Block>, source: Source, end: nat, boundary: nat)
    requires TailLayout(tail, source, end) && tail != []
    requires |tail| > 1 ==> boundary <= tail[1].source.bytes.start
    ensures TailLayout(tail[1..], source, boundary)
  {
    hide NodesOf, LineStart, NodesWithin;
    var rest := tail[1..];
    forall i | 0 <= i < |rest|
      ensures rest[i] == tail[i + 1] && NodesWithin(rest[i], source)
      ensures EndBefore(rest, i, boundary) <= rest[i].source.bytes.start
    {
      assert i > 0 ==> EndBefore(rest, i, boundary) == EndBefore(tail, i + 1, end);
    }
  }

  /** Giving up on settled blocks from `b` on keeps the rest of them before the new end if and only if that
      is not inside the block before, ... */
  lemma LayoutRetreatsIff(blocks: seq<Block>, n: nat, source: Source, end: nat, b: nat, back: nat)
    requires DocLayout(blocks, n, source, end) && b < n && back <= |source|
    ensures SettledLayout(blocks[..b], source, back) <==> EndBefore(blocks, b, 0) <= back
  {
    hide NodesFromLine, NodesBeforeEnd, NodesWithin, InOrder;
    var settled := blocks[..n];
    assert settled[..b] == blocks[..b] && EndBefore(settled, b, 0) == EndBefore(blocks, b, 0);
    LayoutPrefix(settled, b, source, end);
    LayoutPrefix(settled, b, source, 0);
    forall i | 0 <= i < b
      ensures settled[..b][i] == settled[i] && settled[i].source.bytes.end <= EndBefore(blocks, b, 0)
    {
      EndsIncrease(settled, source, i + 1, b);
    }
  }

  /** ... and the blocks given up on are then in order behind it, on lines of their own. */
  lemma TailRetreats(blocks: seq<Block>, n: nat, source: Source, end: nat, b: nat, back: nat)
    requires DocLayout(blocks, n, source, end) && b < n
    requires blocks[b].source.bytes.start <= |source| && back <= LineStart(source, blocks[b].source.bytes.start)
    ensures TailLayout(blocks[b..], source, back) && Apart(blocks[b..], source, back)
  {
    hide LineStart, NodesFromLine, NodesBeforeEnd, InOrder;
    InOrderConcat(blocks[..n], blocks[n..], source, end);
    assert blocks == blocks[..n] + blocks[n..];
    var tail := blocks[b..];
    forall i | 0 <= i < |tail|
      ensures OrderedAt(tail, source, back, i) && NodesWithin(tail[i], source)
    {
      assert tail[i] == blocks[b + i] && (i > 0 ==> tail[i - 1] == blocks[b + i - 1]);
      OrderAt(blocks, source, 0, b + i);
      assert blocks[b + i] == if b + i < n then blocks[..n][b + i] else blocks[n..][b + i - n];
    }
    OrderedEverywhere(tail, source, back);
  }

  ghost predicate OrderedAt(blocks: seq<Block>, source: Source, from: nat, i: nat)
    requires i < |blocks|
  {
    && blocks[i].source.bytes.start < blocks[i].source.bytes.end <= |source|
    && (if i == 0 then from else blocks[i - 1].source.bytes.end) <= blocks[i].source.bytes.start
  }

  lemma OrderedEverywhere(blocks: seq<Block>, source: Source, from: nat)
    requires forall i :: 0 <= i < |blocks| ==> OrderedAt(blocks, source, from, i)
    ensures InOrder(blocks, source, from)
  {
    forall i | 0 <= i < |blocks|
      ensures blocks[i].source.bytes.start < blocks[i].source.bytes.end <= |source|
      ensures EndBefore(blocks, i, from) <= blocks[i].source.bytes.start
    {
      assert OrderedAt(blocks, source, from, i);
    }
  }

  lemma {:induction false} EndsIncrease(blocks: seq<Block>, source: Source, i: nat, j: nat)
    requires InOrder(blocks, source, 0) && i <= j <= |blocks|
    ensures EndBefore(blocks, i, 0) <= EndBefore(blocks, j, 0)
    decreases j
  {
    hide InOrder, LineStart;
    if i < j {
      EndsIncrease(blocks, source, i, j - 1);
      EndStep(blocks, source, j);
    }
  }

  lemma EndStep(blocks: seq<Block>, source: Source, j: nat)
    requires InOrder(blocks, source, 0) && 0 < j <= |blocks|
    ensures EndBefore(blocks, j - 1, 0) <= EndBefore(blocks, j, 0)
  {
    hide LineStart;
    var last := blocks[j - 1];
    assert last.source.bytes.start < last.source.bytes.end;
  }

  /** What is not settled, on lines of its own, starts at the settled end or later. */
  lemma TailStartsFrom(tail: seq<Block>, source: Source, end: nat)
    requires TailLayout(tail, source, end) && Apart(tail, source, end)
    ensures StartFrom(Nodes(tail), end)
  {
    hide TailLayout, LineStart, Nodes, StartFrom;
    if tail == [] {
      NoNodes();
      NothingFrom(end);
    } else {
      TailNodesFrom(tail, source, end);
      FromEarlier(Nodes(tail), LineStart(source, tail[0].source.bytes.start), end);
    }
  }

  lemma FromEarlier(nodes: seq<Node>, later: nat, end: nat)
    requires StartFrom(nodes, later) && end <= later
    ensures StartFrom(nodes, end)
  {
  }

  lemma TailLayoutSame(a: seq<Block>, b: seq<Block>, source: Source, end: nat)
    requires TailLayout(a, source, end) && |a| == |b|
    requires forall i :: 0 <= i < |a| ==> SameBlock(a[i], b[i]) && SameSources(NodesOf(a[i]), NodesOf(b[i]))
    ensures TailLayout(b, source, end)
  {
    hide InOrder, NodesWithin, SameSources, NodesOf, SameBlock;
    forall i | 0 <= i < |b|
      ensures OrderedAt(b, source, end, i) && NodesWithin(b[i], source)
    {
      OrderAt(a, source, end, i);
      SameKind(a[i], b[i]);
      if i > 0 {
        SameKind(a[i - 1], b[i - 1]);
      }
      SameWithin(a[i], b[i], source);
    }
    OrderedEverywhere(b, source, end);
  }

  lemma SameKind(a: Block, b: Block)
    requires SameBlock(a, b)
    ensures a.source == b.source && (a.kind.Code? <==> b.kind.Code?)
  {
  }

  lemma SameWithin(a: Block, b: Block, source: Source)
    requires SameBlock(a, b) && SameSources(NodesOf(a), NodesOf(b)) && NodesWithin(a, source)
    ensures NodesWithin(b, source)
  {
    SameKind(a, b);
    hide NodesOf, LineStart, SameBlock, NodesAscend;
    AscendSame(NodesOf(a), NodesOf(b), source);
    forall n | n in NodesOf(b)
      ensures exists m :: m in NodesOf(a) && m.source == n.source
    {
      var k :| 0 <= k < |NodesOf(b)| && NodesOf(b)[k] == n;
      assert NodesOf(a)[k].source == n.source;
    }
  }

  lemma AscendSame(a: seq<Node>, b: seq<Node>, source: Source)
    requires SameSources(a, b) && NodesAscend(a, source)
    ensures NodesAscend(b, source)
  {
    hide LineStart;
  }

  /** Settled blocks stay settled when the source grows. */
  lemma SettledLayoutStable(blocks: seq<Block>, source: Source, more: Source, end: nat)
    requires SettledLayout(blocks, source, end)
    ensures SettledLayout(blocks, source + more, end)
  {
    hide NodesFromLine, NodesBeforeEnd;
    forall i | 0 <= i < |blocks|
      ensures NodesFromLine(blocks[i], source + more)
    {
      FromLineStable(blocks[i], source, more);
    }
  }

  /** A fenced code block in the document: as parsed, with its lines' targets after its own. */
  ghost predicate ReadyFence(block: Block, source: Source)
    requires block.source.bytes.start <= block.source.bytes.end <= |source|
  {
    block.kind.Code? && block.kind.code.info.Some? ==>
      var bytes, code := block.source.bytes, block.kind.code;
      && block.target.Some? && code.target == block.target
      && block.source == code.source
      && code.body == AimLines(FencedBody(ContentRange(bytes, source), source), block.target.value, 0)
      && ClosedOrScannable(bytes, source) && EndsItsLine(bytes, source)
  }

  /** A fence that reaches the end of the source below a complete opening line is made of a marker
      byte, and no carriage return closed it. */
  ghost predicate ClosedOrScannable(bytes: Range, source: Source)
    requires bytes.start <= |source|
  {
    var opening := FirstLF(source[bytes.start..]);
    bytes.end == |source| && bytes.start + opening < |source| ==>
      var contentStart := bytes.start + opening + 1;
      var (marker, count) := FenceMarker(source[bytes.start..contentStart]);
      IsMarkerByte(marker) && !ClosedByCR(LastPiece(source[contentStart..]), marker, count)
  }

  lemma FreshBecomesReady(a: Block, b: Block, source: Source)
    requires a.source.bytes.start <= a.source.bytes.end <= |source|
    requires FreshFence(a, source) && SameBlock(a, b)
    ensures b.source == a.source && ReadyFence(b, source)
  {
    hide FencedBody, ContentRange, FenceMarker, FirstLF, ClosedByCR, LastPiece;
  }

  /** The id of a code block is the number of nodes before it. */
  lemma CodeTargetIsCount(blocks: seq<Block>, targets: seq<Target>, at: nat)
    requires TargetsMatch(blocks, targets) && at < |blocks| && blocks[at].kind.Code?
    ensures blocks[at].kind.code.target == Some(|Nodes(blocks[..at])|)
  {
    var before, rest := blocks[..at], blocks[at + 1..];
    assert blocks == before + [blocks[at]] + rest;
    NodesConcat(before + [blocks[at]], rest);
    NodesPush(before, blocks[at]);
    CodeNodeFirst(blocks[at]);
    hide Nodes, NodesOf;
    NodeAt(Nodes(before), NodesOf(blocks[at]), Nodes(rest));
  }

  lemma CodeNodeFirst(block: Block)
    requires block.kind.Code?
    ensures |NodesOf(block)| > 0 && NodesOf(block)[0].target == block.kind.code.target
  {
  }

  lemma NodeAt(a: seq<Node>, b: seq<Node>, c: seq<Node>)
    requires a + b + c == Numbered(a + b + c, 0) && b != []
    ensures b[0].target == Some(|a|)
  {
    assert (a + b + c)[|a|] == b[0];
  }
}
