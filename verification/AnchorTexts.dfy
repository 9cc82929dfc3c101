/**
 What a document says of its targets: their texts, found by walking the blocks, and the digests and anchors made
 of them. The anchors a review relies on are these.
 */
module AnchorTexts {
  import opened Bytes
  import opened LineIndexing
  import opened CodeBlocks
  import opened SourceDocuments
  import opened Targets
  import opened MarkdownAnchors
  import opened MarkdownReviews
  import Settling

  datatype Document = Document(sourcePath: Option<Source>, blocks: seq<Block>, targets: seq<Target>,
                               outline: seq<OutlineEntry>)

  /** A digest of parts that tells different parts apart. */
  type Digest = seq<Source> -> nat

  ghost predicate Injective(digest: Digest) {
    forall a, b :: digest(a) == digest(b) ==> a == b
  }

  // ---- texts -------------------------------------------------------------

  function JoinWith(pieces: seq<Source>, separator: Source): Source {
    if pieces == [] then []
    else if |pieces| == 1 then pieces[0]
    else JoinWith(pieces[..|pieces| - 1], separator) + separator + pieces[|pieces| - 1]
  }

  function BlockText(block: Block): Source {
    match block.kind
    case Heading(_, content) => content
    case Paragraph(content) => content
    case HtmlFallback(content) => content
    case List(items) => JoinWith(seq(|items|, i requires 0 <= i < |items| => items[i].content), [SPACE])
    case BlockQuote(blocks) => JoinWith(seq(|blocks|, i requires 0 <= i < |blocks| => BlockText(blocks[i])), [SPACE])
    case Code(code) => code.body.text
    case Table(rows) => JoinWith(seq(|rows|, i requires 0 <= i < |rows| => rows[i].text), [SPACE])
    case Rule => []
  }

  /** The text of the target with this id, in the first place a walk over the blocks meets it. */
  function FindInBlock(block: Block, id: nat): Option<Source>
    decreases block
  {
    if block.target == Some(id) then Some(BlockText(block))
    else
      match block.kind
      case List(items) => FindInItems(items, id)
      case Code(code) => FindLine(code.body, 0, id)
      case Table(rows) => FindRow(rows, id)
      case _ => None
  }

  function FindInBlocks(blocks: seq<Block>, id: nat): Option<Source>
    decreases blocks
  {
    if blocks == [] then None
    else
      var here := FindInBlock(blocks[0], id);
      if here.Some? then here else FindInBlocks(blocks[1..], id)
  }

  function FindInItems(items: seq<ListItem>, id: nat): Option<Source>
    decreases items
  {
    if items == [] then None
    else if items[0].target == Some(id) then Some(items[0].content)
    else
      var here := FindInBlocks(items[0].blocks, id);
      if here.Some? then here else FindInItems(items[1..], id)
  }

  function FindLine(body: Body, from: nat, id: nat): Option<Source>
    requires from <= |body.lines|
    decreases |body.lines| - from
  {
    if from == |body.lines| then None
    else if body.lines[from].target == Some(id) then Some(body.LineText(body.lines[from]))
    else FindLine(body, from + 1, id)
  }

  function FindRow(rows: seq<TableRow>, id: nat): Option<Source> {
    if rows == [] then None
    else if rows[0].target == Some(id) then Some(rows[0].text)
    else FindRow(rows[1..], id)
  }

  /** The code block with this target. */
  function CodeIn(block: Block, id: nat): Option<CodeBlock>
    decreases block
  {
    match block.kind
    case Code(code) => if code.target == Some(id) then Some(code) else None
    case List(items) => CodeInItems(items, id)
    case _ => None
  }

  function CodeAt(blocks: seq<Block>, id: nat): Option<CodeBlock>
    decreases blocks
  {
    if blocks == [] then None
    else
      var here := CodeIn(blocks[0], id);
      if here.Some? then here else CodeAt(blocks[1..], id)
  }

  function CodeInItems(items: seq<ListItem>, id: nat): Option<CodeBlock>
    decreases items
  {
    if items == [] then None
    else
      var here := CodeAt(items[0].blocks, id);
      if here.Some? then here else CodeInItems(items[1..], id)
  }

  /** A line of a code block: the block's target, the block, and where in it the line is. */
  datatype Home = Home(block: nat, code: CodeBlock, line: nat)

  function LineWith(lines: seq<CodeLine>, id: nat): (r: Option<nat>)
    ensures r.Some? ==> r.value < |lines| && lines[r.value].target == Some(id)
  {
    if lines == [] then None
    else if lines[0].target == Some(id) then Some(0)
    else
      var rest := LineWith(lines[1..], id);
      if rest.Some? then Some(rest.value + 1) else None
  }

  function ParentIn(block: Block, id: nat): Option<Home>
    decreases block
  {
    match block.kind
    case Code(code) =>
      var line := LineWith(code.body.lines, id);
      if line.Some? && code.target.Some? then Some(Home(code.target.value, code, line.value)) else None
    case List(items) => ParentInItems(items, id)
    case _ => None
  }

  function ParentAt(blocks: seq<Block>, id: nat): Option<Home>
    decreases blocks
  {
    if blocks == [] then None
    else
      var here := ParentIn(blocks[0], id);
      if here.Some? then here else ParentAt(blocks[1..], id)
  }

  function ParentInItems(items: seq<ListItem>, id: nat): Option<Home>
    decreases items
  {
    if items == [] then None
    else
      var here := ParentAt(items[0].blocks, id);
      if here.Some? then here else ParentInItems(items[1..], id)
  }

  // ---- normalizing ---------------------------------------------------------

  predicate IsSpace(b: byte) { b == SPACE || TAB <= b <= CR }

  function Words(text: Source): (r: seq<Source>)
    ensures text != [] && !IsSpace(text[|text| - 1]) ==> r != []
  {
    if text == [] then []
    else
      var init, b := text[..|text| - 1], text[|text| - 1];
      var before := Words(init);
      if IsSpace(b) then before
      else if init == [] || IsSpace(init[|init| - 1]) then before + [[b]]
      else before[..|before| - 1] + [before[|before| - 1] + [b]]
  }

  /** Every line ending as a line feed. */
  function UnixText(text: Source): Source {
    if text == [] then []
    else
      var init, b := text[..|text| - 1], text[|text| - 1];
      if b == LF && init != [] && init[|init| - 1] == CR then UnixText(init)
      else UnixText(init) + [if b == CR then LF else b]
  }

  function TrimEnd(line: Source): Source {
    if line != [] && IsSpace(line[|line| - 1]) then TrimEnd(line[..|line| - 1]) else line
  }

  function Normalized(kind: TargetKind, text: Source): Source {
    if kind == CodeBlockTarget || kind == CodeLineTarget then
      var lines := TextLines(UnixText(text));
      JoinWith(seq(|lines|, i requires 0 <= i < |lines| => TrimEnd(lines[i])), [LF])
    else JoinWith(Words(UnixText(text)), [SPACE])
  }

  function KindName(kind: TargetKind): Source {
    match kind
    case HeadingTarget => [104, 101, 97, 100, 105, 110, 103]
    case ParagraphTarget => [112, 97, 114, 97, 103, 114, 97, 112, 104]
    case ListItemTarget => [108, 105, 115, 116, 45, 105, 116, 101, 109]
    case BlockQuoteTarget => [98, 108, 111, 99, 107, 113, 117, 111, 116, 101]
    case TableRowTarget => [116, 97, 98, 108, 101, 45, 114, 111, 119]
    case CodeBlockTarget => [99, 111, 100, 101, 45, 98, 108, 111, 99, 107]
    case CodeLineTarget => [99, 111, 100, 101, 45, 108, 105, 110, 101]
  }

  // ---- what a document says of a target --------------------------------------

  function TextOf(document: Document, id: nat): Option<Source> {
    FindInBlocks(document.blocks, id)
  }

  /** The normalized text of a target, empty if it has none or is not there. */
  function Reading(document: Document, id: int): Source {
    if 0 <= id < |document.targets| then
      var text := TextOf(document, document.targets[id].id);
      Normalized(document.targets[id].kind, if text.Some? then text.value else [])
    else []
  }

  ghost function PathOf(document: Document, line: nat): seq<Source> {
    var n := HeadingsUpTo(document.outline, line);
    Titles(OpenAt(document.outline, n, n))
  }

  const UNIT_SEPARATOR: Source := [31]

  function ContentParts(document: Document, t: nat): seq<Source>
    requires t < |document.targets|
  {
    [KindName(document.targets[t].kind), Reading(document, t)]
  }

  ghost function ContextParts(document: Document, t: nat): seq<Source>
    requires t < |document.targets|
  {
    [if document.sourcePath.Some? then document.sourcePath.value
     else [], KindName(document.targets[t].kind), Reading(document, t),
     JoinWith(PathOf(document, document.targets[t].source.lines.start), UNIT_SEPARATOR), Reading(document, t - 1),
         Reading(document, t + 1)]
  }

  ghost function DescribedAt(document: Document, digest: Digest, t: nat): Described {
    if t < |document.targets| then
      Described(digest(ContentParts(document, t)), digest(ContextParts(document, t)),
                PathOf(document, document.targets[t].source.lines.start))
    else Described(0, 0, [])
  }

  ghost function BlockAnchorAt(document: Document, digest: Digest, snapshot: SourceRange -> string,
                               t: nat): Option<BlockAnchor>
  {
    if t >= |document.targets| || document.targets[t].kind == CodeLineTarget || TextOf(document, t).None? then None
    else
      var target, said := document.targets[t], DescribedAt(document, digest, t);
      Some(BlockAnchor(document.sourcePath, target.kind, target.source.lines, said.content, said.context, said.path,
                       snapshot(target.source)))
  }

  function LineDigest(digest: Digest, code: CodeBlock, line: nat): nat
    requires line < |code.body.lines|
  {
    digest([TrimEnd(UnixText(code.body.LineText(code.body.lines[line])))])
  }

  ghost function AnchorAt(document: Document, digest: Digest, snapshot: SourceRange -> string, t: nat): Option<Anchor> {
    if t >= |document.targets| || TextOf(document, t).None? then None
    else if document.targets[t].kind != CodeLineTarget then
      var block := BlockAnchorAt(document, digest, snapshot, t);
      if block.Some? then Some(OfBlock(block.value)) else None
    else
      match ParentAt(document.blocks, t)
      case None => None
      case Some(Home(b, code, line)) =>
        var block := BlockAnchorAt(document, digest, snapshot, b);
        if block.None? || line >= |code.body.lines| then None
        else
          var found := code.body.lines[line];
          Some(OfCodeLine(block.value, found.index, found.sourceLine, LineDigest(digest, code, line),
                          snapshot(found.source)))
  }

  function CodeLinesAt(document: Document, digest: Digest, id: nat): Option<seq<CodeLineView>> {
    match CodeAt(document.blocks, id)
    case None => None
    case Some(code) =>
      Some(seq(|code.body.lines|, i requires 0 <= i < |code.body.lines| =>
        CodeLineView(LineDigest(digest, code, i), code.body.lines[i].target)))
  }

  /** The target of a line of the code block with this target. */
  function LineTargetAt(document: Document, id: nat, line: nat): Option<nat> {
    match CodeAt(document.blocks, id)
    case None => None
    case Some(code) => if line < |code.body.lines| then code.body.lines[line].target else None
  }

  /** The document as the search for an anchor's target sees it. */
  ghost function Searched(document: Document, digest: Digest, snapshot: SourceRange -> string): Anchored {
    Anchored(document.targets, (t: nat) => AnchorAt(document, digest, snapshot, t),
             (b: nat, line: nat) => LineTargetAt(document, b, line))
  }

  /** The document as a review sees it; comment contexts come from the host. */
  ghost function Review(document: Document, digest: Digest, snapshot: SourceRange -> string,
                        contextOf: (nat, Anchor) -> Option<Context>): Reviewed
  {
    Reviewed(document.targets, (t: nat) => DescribedAt(document, digest, t),
             (b: nat) => CodeLinesAt(document, digest, b), (t: nat) => AnchorAt(document, digest, snapshot, t),
                 contextOf)
  }

  // ---- documents as the crate builds them --------------------------------------

  /** Blocks inside list items are not targets themselves, but for further lists. */
  ghost predicate BareBlock(block: Block)
    decreases block
  {
    match block.kind
    case Code(code) => code.target == None
    case List(items) => BareItems(items)
    case _ => true
  }

  ghost predicate BareBlocks(blocks: seq<Block>)
    decreases blocks
  {
    forall i :: 0 <= i < |blocks| ==> BareBlock(blocks[i])
  }

  ghost predicate BareItems(items: seq<ListItem>)
    decreases items
  {
    forall i :: 0 <= i < |items| ==> BareBlocks(items[i].blocks)
  }

  /** A top-level block: its code lines are numbered, and blocks nested in it are bare. */
  ghost predicate WellBuilt(block: Block) {
    match block.kind
    case Code(code) =>
      && block.target == code.target && code.target.Some?
      && forall k :: 0 <= k < |code.body.lines| ==> code.body.lines[k].index == k
    case List(items) => BareItems(items)
    case _ => true
  }

  ghost predicate Built(document: Document) {
    && TargetsMatch(document.blocks, document.targets)
    && forall p :: 0 <= p < |document.blocks| ==> WellBuilt(document.blocks[p])
  }

  /** What the parser hands over: numbered lines, and nothing targeted inside list items. */
  ghost predicate Fresh(block: Block) {
    match block.kind
    case Code(code) => forall k :: 0 <= k < |code.body.lines| ==> code.body.lines[k].index == k
    case List(items) => BareItems(items)
    case _ => true
  }

  lemma {:induction false} BareItemsStay(a: seq<ListItem>, b: seq<ListItem>)
    requires SameItems(a, b) && BareItems(a)
    ensures BareItems(b)
    decreases a
  {
    forall i | 0 <= i < |b|
      ensures BareBlocks(b[i].blocks)
    {
      assert SameItem(a[i], b[i]) && BareBlocks(a[i].blocks);
      forall j | 0 <= j < |b[i].blocks|
        ensures BareBlock(b[i].blocks[j])
      {
        assert SameNested(a[i].blocks[j], b[i].blocks[j]) && BareBlock(a[i].blocks[j]);
        if a[i].blocks[j].kind.List? {
          BareItemsStay(a[i].blocks[j].kind.items, b[i].blocks[j].kind.items);
        }
      }
    }
  }

  /** Assigning targets to freshly parsed blocks gives such a document. */
  lemma {:induction false} AssigningBuilds(parsed: seq<Block>, document: Document)
    requires AssignedFrom(parsed, document.blocks, 0) && document.targets == TargetsOf(Nodes(parsed), 0)
    requires forall p :: 0 <= p < |parsed| ==> Fresh(parsed[p])
    ensures Built(document)
  {
    hide Nodes;
    forall p | 0 <= p < |parsed|
      ensures WellBuilt(document.blocks[p])
    {
      FreshIsWellBuilt(parsed[p], document.blocks[p]);
    }
  }

  lemma FreshIsWellBuilt(a: Block, b: Block)
    requires SameBlock(a, b) && Fresh(a)
    ensures WellBuilt(b)
  {
    match a.kind
    case List(items) => BareItemsStay(items, b.kind.items);
    case _ =>
  }

  lemma {:induction false} NoCodeInItems(items: seq<ListItem>, id: nat)
    requires BareItems(items)
    ensures CodeInItems(items, id) == None && ParentInItems(items, id) == None
    decreases items
  {
    if items != [] {
      NoCodeInBlocks(items[0].blocks, id);
      assert BareItems(items[1..]);
      NoCodeInItems(items[1..], id);
    }
  }

  lemma {:induction false} NoCodeInBlocks(blocks: seq<Block>, id: nat)
    requires BareBlocks(blocks)
    ensures CodeAt(blocks, id) == None && ParentAt(blocks, id) == None
    decreases blocks
  {
    if blocks != [] {
      NoCodeInBlock(blocks[0], id);
      assert BareBlocks(blocks[1..]);
      NoCodeInBlocks(blocks[1..], id);
    }
  }

  lemma {:induction false} NoCodeInBlock(block: Block, id: nat)
    requires BareBlock(block)
    ensures CodeIn(block, id) == None && ParentIn(block, id) == None
    decreases block
  {
    match block.kind
    case List(items) => NoCodeInItems(items, id);
    case _ =>
  }

  /** A line's parent is a code block of the document itself. */
  lemma {:induction false} ParentIsTop(blocks: seq<Block>, id: nat) returns (p: nat)
    requires ParentAt(blocks, id).Some? && forall q :: 0 <= q < |blocks| ==> WellBuilt(blocks[q])
    ensures var home := ParentAt(blocks, id).value;
            && p < |blocks| && blocks[p].kind == Code(home.code)
            && blocks[p].target == home.code.target == Some(home.block)
            && home.line < |home.code.body.lines| && home.code.body.lines[home.line].target == Some(id)
            && home.code.body.lines[home.line].index == home.line
    decreases blocks
  {
    assert WellBuilt(blocks[0]);
    if blocks[0].kind.List? {
      NoCodeInItems(blocks[0].kind.items, id);
    }
    if ParentIn(blocks[0], id).Some? {
      p := 0;
    } else {
      var rest := blocks[1..];
      p := ParentIsTop(rest, id);
      p := p + 1;
    }
  }

  /** Code blocks of a numbered document have different targets. */
  lemma CodeTargetsDiffer(blocks: seq<Block>, targets: seq<Target>, p: nat, q: nat)
    requires TargetsMatch(blocks, targets) && p < q < |blocks| && blocks[p].kind.Code? && blocks[q].kind.Code?
    ensures blocks[p].kind.code.target != blocks[q].kind.code.target
  {
    hide TargetsMatch, Nodes;
    Settling.CodeTargetIsCount(blocks, targets, p);
    Settling.CodeTargetIsCount(blocks, targets, q);
    var between := blocks[p + 1..q];
    assert blocks[..q] == blocks[..p] + [blocks[p]] + between;
    NodesConcat(blocks[..p] + [blocks[p]], between);
    NodesPush(blocks[..p], blocks[p]);
    Settling.CodeNodeFirst(blocks[p]);
  }

  lemma {:induction false} CodeFoundAt(blocks: seq<Block>, p: nat, id: nat)
    requires p < |blocks| && blocks[p].kind.Code? && blocks[p].kind.code.target == Some(id)
    requires forall q :: 0 <= q < |blocks| ==> WellBuilt(blocks[q])
    requires forall q :: 0 <= q < p && blocks[q].kind.Code? ==> blocks[q].kind.code.target != Some(id)
    ensures CodeAt(blocks, id) == Some(blocks[p].kind.code)
    decreases blocks
  {
    if p > 0 {
      assert WellBuilt(blocks[0]);
      if blocks[0].kind.List? {
        NoCodeInItems(blocks[0].kind.items, id);
      }
      CodeFoundAt(blocks[1..], p - 1, id);
    }
  }

  lemma {:induction false} TextFoundAt(blocks: seq<Block>, p: nat, id: nat)
    requires p < |blocks| && blocks[p].target == Some(id)
    ensures FindInBlocks(blocks, id).Some?
    decreases blocks
  {
    if p > 0 {
      TextFoundAt(blocks[1..], p - 1, id);
    }
  }

  /** A code block's own target is one of that kind. */
  lemma CodeTargetKind(blocks: seq<Block>, targets: seq<Target>, p: nat)
    requires TargetsMatch(blocks, targets) && p < |blocks| && blocks[p].kind.Code?
    ensures blocks[p].kind.code.target.Some?
    ensures var b := blocks[p].kind.code.target.value; b < |targets| && targets[b].kind == CodeBlockTarget
  {
    hide Nodes, NodesOf, TargetsMatch;
    KindOfCode(blocks[p]);
    NodeOfBlock(blocks, p);
    TargetsArePositions(blocks, targets);
    assert NodesOf(blocks[p])[0] in Nodes(blocks);
  }

  lemma NodeOfBlock(blocks: seq<Block>, p: nat)
    requires p < |blocks|
    ensures forall n :: n in NodesOf(blocks[p]) ==> n in Nodes(blocks)
  {
    hide Nodes, NodesOf;
    var rest := blocks[p + 1..];
    assert blocks == blocks[..p] + [blocks[p]] + rest;
    NodesConcat(blocks[..p] + [blocks[p]], rest);
    NodesPush(blocks[..p], blocks[p]);
  }

  lemma KindOfCode(block: Block)
    requires block.kind.Code?
    ensures |NodesOf(block)| > 0 && NodesOf(block)[0].kind == CodeBlockTarget
            && NodesOf(block)[0].target == block.kind.code.target
  {
  }

  // ---- what reviews rely on ----------------------------------------------------

  /** The anchors of any document the crate builds say what it says. */
  lemma AnchorsAreWellMade(document: Document, digest: Digest, snapshot: SourceRange -> string,
                           contextOf: (nat, Anchor) -> Option<Context>)
    requires Built(document)
    ensures WellAnchored(Review(document, digest, snapshot, contextOf))
  {
    hide TargetsMatch, WellBuilt, DescribedAt, BlockAnchorAt, DescribesLine;
    var review := Review(document, digest, snapshot, contextOf);
    TargetsArePositions(document.blocks, document.targets);
    forall t: nat, block | review.anchorOf(t) == Some(OfBlock(block))
      ensures DescribesBlock(review, t, block)
    {
      BlockAnchorDescribes(document, digest, snapshot, t);
    }
    forall t: nat, anchor | review.anchorOf(t) == Some(anchor) && anchor.OfCodeLine?
      ensures DescribesLine(review, t, anchor)
    {
      LineAnchorDescribes(document, digest, snapshot, contextOf, t, anchor);
    }
  }

  lemma BlockAnchorDescribes(document: Document, digest: Digest, snapshot: SourceRange -> string, t: nat)
    ensures var block := BlockAnchorAt(document, digest, snapshot, t);
            block.Some? ==>
              && t < |document.targets| && document.targets[t].kind == block.value.kind
              && document.targets[t].source.lines == block.value.lines
              && DescribedAt(document, digest, t)
                  == Described(block.value.content, block.value.context, block.value.path)
  {
    hide TextOf, ContentParts, ContextParts, PathOf;
  }

  lemma LineAnchorDescribes(document: Document, digest: Digest, snapshot: SourceRange -> string,
                            contextOf: (nat, Anchor) -> Option<Context>, t: nat, anchor: Anchor)
    requires Built(document) && AnchorAt(document, digest, snapshot, t) == Some(anchor) && anchor.OfCodeLine?
    ensures DescribesLine(Review(document, digest, snapshot, contextOf), t, anchor)
  {
    hide TargetsMatch, WellBuilt, DescribedAt, LineDigest, ParentAt, CodeAt, FindInBlocks;
    var review := Review(document, digest, snapshot, contextOf);
    var b := LineIsInBlock(document, digest, snapshot, t, anchor);
    assert review.anchorOf(b) == Some(OfBlock(anchor.block));
    assert HoldsLine(review.codeLines(b), t, anchor.line, anchor.content);
  }

  /** The anchor of a line is made from the code block the line is found in again. */
  lemma LineIsInBlock(document: Document, digest: Digest, snapshot: SourceRange -> string, t: nat, anchor: Anchor)
    returns (b: nat)
    requires Built(document) && AnchorAt(document, digest, snapshot, t) == Some(anchor) && anchor.OfCodeLine?
    ensures b < |document.targets| && document.targets[b].kind == CodeBlockTarget && TextOf(document, b).Some?
    ensures BlockAnchorAt(document, digest, snapshot, b) == Some(anchor.block)
    ensures CodeAt(document.blocks, b).Some?
    ensures var code := CodeAt(document.blocks, b).value;
            && anchor.line < |code.body.lines| && code.body.lines[anchor.line].target == Some(t)
            && anchor.content == LineDigest(digest, code, anchor.line)
  {
    hide TargetsMatch, WellBuilt, DescribedAt, LineDigest, ParentAt, CodeAt, FindInBlocks;
    var home := ParentAt(document.blocks, t).value;
    b := home.block;
    var p := ParentIsTop(document.blocks, t);
    forall q | 0 <= q < p && document.blocks[q].kind.Code?
      ensures document.blocks[q].kind.code.target != Some(home.block)
    {
      CodeTargetsDiffer(document.blocks, document.targets, q, p);
    }
    CodeFoundAt(document.blocks, p, home.block);
    CodeTargetKind(document.blocks, document.targets, p);
    TextFoundAt(document.blocks, p, home.block);
  }

  /** In any document the crate builds whose targets are in source order, the search for an anchor's target is about
      the anchors the document makes: each is made for a target of the kind and lines it records, or for a line of
      such a code block. */
  lemma AnchorsAreSearchable(document: Document, digest: Digest, snapshot: SourceRange -> string)
    requires Built(document)
    requires forall i, j :: 0 <= i < j < |document.targets| ==>
                              document.targets[i].source.lines.start <= document.targets[j].source.lines.start
    ensures Searched(document, digest, snapshot).Valid()
  {
    hide TargetsMatch, WellBuilt, DescribedAt, BlockAnchorAt, LineDigest, ParentAt, CodeAt, FindInBlocks;
    var searched := Searched(document, digest, snapshot);
    TargetsArePositions(document.blocks, document.targets);
    forall id: nat, anchor | searched.anchorOf(id) == Some(anchor)
      ensures exists t: nat :: t < |searched.targets| && searched.Suits(t, anchor)
                               && searched.Wanted(t, anchor) == Some(id)
    {
      var t := id;
      if anchor.OfCodeLine? {
        t := LineIsInBlock(document, digest, snapshot, id, anchor);
      }
      BlockAnchorDescribes(document, digest, snapshot, t);
      assert searched.Suits(t, anchor) && searched.Wanted(t, anchor) == Some(id);
    }
  }

  /** Targets on one line are under the same headings, so with a digest that tells parts apart those that
      share a context share all the rest. */
  lemma ContextsCover(document: Document, digest: Digest, snapshot: SourceRange -> string,
                      contextOf: (nat, Anchor) -> Option<Context>)
    requires Injective(digest)
    ensures ContextCovers(Review(document, digest, snapshot, contextOf))
  {
    hide PathOf, Reading, KindName;
    var review := Review(document, digest, snapshot, contextOf);
    forall t: nat, u: nat | t < |review.targets| && u < |review.targets|
        && review.targets[t].source.lines.start == review.targets[u].source.lines.start
                            && review.describe(t).context == review.describe(u).context
      ensures review.describe(t).content == review.describe(u).content
              && review.describe(t).path == review.describe(u).path
    {
      SameParts(document, digest, t, u);
    }
  }

  lemma SameParts(document: Document, digest: Digest, t: nat, u: nat)
    requires Injective(digest) && t < |document.targets| && u < |document.targets|
    ensures digest(ContextParts(document, t)) == digest(ContextParts(document, u)) <==>
            ContextParts(document, t) == ContextParts(document, u)
    ensures ContextParts(document, t) == ContextParts(document, u) ==>
            ContentParts(document, t) == ContentParts(document, u)
  {
    hide PathOf, Reading, KindName;
    var a, b := ContextParts(document, t), ContextParts(document, u);
    assert a == b ==> a[1] == b[1] && a[2] == b[2];
  }

  /** Two targets that start on one line and are alike in kind, text and neighbours. */
  ghost predicate Twins(document: Document, t: nat, u: nat) {
    && t < |document.targets| && u < |document.targets| && t != u
    && document.targets[t].kind == document.targets[u].kind
    && document.targets[t].source.lines.start == document.targets[u].source.lines.start
    && Reading(document, t) == Reading(document, u)
    && Reading(document, t - 1) == Reading(document, u - 1) && Reading(document, t + 1) == Reading(document, u + 1)
  }

  /** A target is ambiguous exactly when it has a twin. */
  lemma AmbiguousIffTwin(document: Document, digest: Digest, snapshot: SourceRange -> string,
                         contextOf: (nat, Anchor) -> Option<Context>, t: nat)
    requires Injective(digest) && t < |document.targets|
    ensures Ambiguous(Review(document, digest, snapshot, contextOf), t) <==> exists u: nat :: Twins(document, t, u)
  {
    hide PathOf, Reading, KindName;
    var review := Review(document, digest, snapshot, contextOf);
    if Ambiguous(review, t) {
      var u: nat :| u < |review.targets| && u != t && review.targets[u].kind == review.targets[t].kind
                    && review.describe(u).context == review.describe(t).context
                    && review.targets[u].source.lines.start == review.targets[t].source.lines.start;
      SameParts(document, digest, t, u);
      var a, b := ContextParts(document, t), ContextParts(document, u);
      assert a[2] == b[2] && a[4] == b[4] && a[5] == b[5];
      assert Twins(document, t, u);
    }
    if exists u: nat :: Twins(document, t, u) {
      var u: nat :| Twins(document, t, u);
      assert ContextParts(document, t) == ContextParts(document, u);
      assert review.describe(u).context == review.describe(t).context;
    }
  }
}
