/**
 Blocks of a parsed document and the numbering of what can be commented on. A target id is a
 position in the document's target list, so the list and the ids inside the blocks must agree.
 */
module Targets {
  import opened Bytes
  import opened LineIndexing
  import opened CodeBlocks

  datatype TargetKind =
    | HeadingTarget | ParagraphTarget | ListItemTarget | BlockQuoteTarget
    | TableRowTarget | CodeBlockTarget | CodeLineTarget

  datatype Target = Target(id: nat, kind: TargetKind, source: SourceRange)

  datatype Block = Block(source: SourceRange, kind: BlockKind, target: Option<nat>)

  datatype BlockKind =
    | Heading(level: nat, content: Source)
    | Paragraph(content: Source)
    | List(items: seq<ListItem>)
    | BlockQuote(blocks: seq<Block>)
    | Code(code: CodeBlock)
    | Table(rows: seq<TableRow>)
    | HtmlFallback(content: Source)
    | Rule

  datatype ListItem = ListItem(source: SourceRange, content: Source, blocks: seq<Block>, target: Option<nat>)

  /** `text` is the text of the cells. */
  datatype TableRow = TableRow(source: SourceRange, text: Source, target: Option<nat>)

  datatype OutlineEntry = OutlineEntry(level: nat, title: Source, source: SourceRange, target: nat)

  // ---- the commentable nodes, in document order ----------------------------

  datatype Node = Node(target: Option<nat>, kind: TargetKind, source: SourceRange)

  function Nodes(blocks: seq<Block>): seq<Node> {
    if blocks == [] then [] else Nodes(blocks[..|blocks| - 1]) + NodesOf(blocks[|blocks| - 1])
  }

  function NodesOf(block: Block): seq<Node> {
    match block.kind
    case Heading(_, _) => [Node(block.target, HeadingTarget, block.source)]
    case Paragraph(_) => [Node(block.target, ParagraphTarget, block.source)]
    case List(items) => ItemNodes(items)
    case BlockQuote(_) => [Node(block.target, BlockQuoteTarget, block.source)]
    case Code(code) => CodeNodes(code)
    case Table(rows) => RowNodes(rows)
    case HtmlFallback(_) => []
    case Rule => []
  }

  function CodeNodes(code: CodeBlock): seq<Node> {
    [Node(code.target, CodeBlockTarget, code.source)]
    + seq(|code.body.lines|, i requires 0 <= i < |code.body.lines| =>
        Node(code.body.lines[i].target, CodeLineTarget, code.body.lines[i].source))
  }

  function RowNodes(rows: seq<TableRow>): seq<Node> {
    seq(|rows|, i requires 0 <= i < |rows| => Node(rows[i].target, TableRowTarget, rows[i].source))
  }

  function ItemNodes(items: seq<ListItem>): seq<Node> {
    if items == [] then []
    else
      var last := items[|items| - 1];
      ItemNodes(items[..|items| - 1]) + [Node(last.target, ListItemTarget, last.source)] + NestedNodes(last.blocks)
  }

  /** Inside a list item only further lists are commentable. */
  function NestedNodes(blocks: seq<Block>): seq<Node> {
    if blocks == [] then []
    else
      var last := blocks[|blocks| - 1];
      NestedNodes(blocks[..|blocks| - 1]) + NestedNodesOf(last)
  }

  function NestedNodesOf(block: Block): seq<Node> {
    match block
    case Block(_, List(items), _) => ItemNodes(items)
    case _ => []
  }

  lemma {:induction false} NodesConcat(a: seq<Block>, b: seq<Block>)
    ensures Nodes(a + b) == Nodes(a) + Nodes(b)
    decreases |b|
  {
    hide NodesOf;
    if b == [] {
      assert a + b == a;
    } else {
      NodesConcat(a, b[..|b| - 1]);
      assert (a + b)[..|a + b| - 1] == a + b[..|b| - 1];
    }
  }

  lemma NoNodes()
    ensures Nodes([]) == [] && Headings([]) == []
  {
  }

  lemma NodesPush(a: seq<Block>, block: Block)
    ensures Nodes(a + [block]) == Nodes(a) + NodesOf(block)
  {
    assert (a + [block])[..|a|] == a;
  }

  /** Node `i` gets id `next + i`. */
  function Numbered(nodes: seq<Node>, next: nat): seq<Node> {
    seq(|nodes|, i requires 0 <= i < |nodes| => nodes[i].(target := Some(next + i)))
  }

  function TargetsOf(nodes: seq<Node>, next: nat): seq<Target> {
    seq(|nodes|, i requires 0 <= i < |nodes| => Target(next + i, nodes[i].kind, nodes[i].source))
  }

  lemma NumberedConcat(a: seq<Node>, b: seq<Node>, next: nat)
    ensures Numbered(a + b, next) == Numbered(a, next) + Numbered(b, next + |a|)
    ensures TargetsOf(a + b, next) == TargetsOf(a, next) + TargetsOf(b, next + |a|)
  {
  }

  /** Ids are positions, and every node's id leads back to that node's kind and source. */
  ghost predicate TargetsMatch(blocks: seq<Block>, targets: seq<Target>) {
    targets == TargetsOf(Nodes(blocks), 0) && Nodes(blocks) == Numbered(Nodes(blocks), 0)
  }

  /** What that means for a reader of the document. */
  lemma TargetsArePositions(blocks: seq<Block>, targets: seq<Target>)
    requires TargetsMatch(blocks, targets)
    ensures forall i :: 0 <= i < |targets| ==> targets[i].id == i
    ensures forall n :: n in Nodes(blocks) ==>
              n.target.Some? && n.target.value < |targets|
                  && targets[n.target.value] == Target(n.target.value, n.kind, n.source)
    ensures forall i, j :: 0 <= i < j < |Nodes(blocks)| ==> Nodes(blocks)[i].target != Nodes(blocks)[j].target
  {
    var nodes := Nodes(blocks);
    forall i | 0 <= i < |nodes|
      ensures nodes[i].target == Some(i)
    {
      assert nodes[i] == Numbered(nodes, 0)[i];
    }
  }

  // ---- assigning -----------------------------------------------------------

  /** Blocks with every commentable node numbered from `next` on, everything else as it was. */
  ghost predicate AssignedFrom(before: seq<Block>, after: seq<Block>, next: nat) {
    && Nodes(after) == Numbered(Nodes(before), next)
    && |after| == |before|
    && forall i :: 0 <= i < |before| ==>
                     SameBlock(before[i], after[i]) && SameSources(NodesOf(before[i]), NodesOf(after[i]))
  }

  ghost predicate SameSources(a: seq<Node>, b: seq<Node>) {
    |a| == |b| && forall i :: 0 <= i < |a| ==> a[i].source == b[i].source
  }

  /** Equal up to targets. */
  ghost predicate SameBlock(a: Block, b: Block)
    decreases a
  {
    && a.source == b.source
    && match a.kind
       case Heading(_, _) => b.kind == a.kind
       case Paragraph(_) => b.kind == a.kind
       case BlockQuote(_) => b.kind == a.kind
       case HtmlFallback(_) => b.kind == a.kind
       case Rule => b.kind == a.kind
       case List(items) => b.kind.List? && SameItems(items, b.kind.items)
       case Table(rows) =>
         b.kind.Table? && |rows| == |b.kind.rows| && forall i :: 0 <= i < |rows| ==>
             b.kind.rows[i] == rows[i].(target := b.kind.rows[i].target)
       case Code(code) =>
         && b.kind.Code? && b.kind.code.target.Some? && b.target == b.kind.code.target
         && b.kind.code == code.(target := b.target, body := AimLines(code.body, b.target.value, 0))
  }

  ghost predicate SameItems(a: seq<ListItem>, b: seq<ListItem>)
    decreases a
  {
    && |a| == |b|
    && forall i :: 0 <= i < |a| ==> SameItem(a[i], b[i])
  }

  ghost predicate SameNested(a: Block, b: Block)
    decreases a
  {
    match a.kind
    case List(items) => b == a.(kind := b.kind) && b.kind.List? && SameItems(items, b.kind.items)
    case _ => b == a
  }

  lemma ItemNodesPush(items: seq<ListItem>, item: ListItem)
    ensures ItemNodes(items + [item])
         == ItemNodes(items) + [Node(item.target, ListItemTarget, item.source)] + NestedNodes(item.blocks)
  {
    hide NestedNodes;
    assert (items + [item])[..|items|] == items;
  }

  lemma NestedNodesPush(blocks: seq<Block>, block: Block)
    ensures NestedNodes(blocks + [block]) == NestedNodes(blocks) + NestedNodesOf(block)
  {
    hide NestedNodesOf;
    assert (blocks + [block])[..|blocks|] == blocks;
  }

  lemma TakePush<T>(s: seq<T>, i: nat)
    requires i < |s|
    ensures s[..i + 1] == s[..i] + [s[i]]
  {
  }

  ghost predicate SameItem(a: ListItem, b: ListItem)
    decreases a
  {
    && a.source == b.source && a.content == b.content
    && |a.blocks| == |b.blocks|
    && forall j :: 0 <= j < |a.blocks| ==> SameNested(a.blocks[j], b.blocks[j])
  }

  method AssignItems(items: seq<ListItem>, targets: seq<Target>) returns (done: seq<ListItem>, numbered: seq<Target>)
    ensures SameItems(items, done)
    ensures ItemNodes(done) == Numbered(ItemNodes(items), |targets|)
    ensures numbered == targets + TargetsOf(ItemNodes(items), |targets|)
    decreases items
  {
    hide ItemNodes, NestedNodes, SameItem;
    done, numbered := [], targets;
    NoItemNodes();
    for i := 0 to |items|
      invariant |done| == i && forall k :: 0 <= k < i ==> SameItem(items[k], done[k])
      invariant ItemNodes(done) == Numbered(ItemNodes(items[..i]), |targets|)
      invariant numbered == targets + TargetsOf(ItemNodes(items[..i]), |targets|)
    {
      ghost var before, nested := ItemNodes(items[..i]), NestedNodes(items[i].blocks);
      var item;
      item, numbered := AssignItem(items[i], numbered);
      TakePush(items, i);
      ItemNodesPush(items[..i], items[i]);
      ItemNodesPush(done, item);
      ghost var head := [Node(items[i].target, ListItemTarget, items[i].source)];
      NumberedConcat(before, head + nested, |targets|);
      assert before + (head + nested) == ItemNodes(items[..i + 1]);
      done := done + [item];
    }
    assert items[..|items|] == items;
  }

  lemma NoItemNodes()
    ensures ItemNodes([]) == [] && NestedNodes([]) == []
  {
  }

  method AssignItem(item: ListItem, targets: seq<Target>) returns (done: ListItem, numbered: seq<Target>)
    ensures SameItem(item, done)
    ensures [Node(done.target, ListItemTarget, done.source)] + NestedNodes(done.blocks)
         == Numbered([Node(item.target, ListItemTarget, item.source)] + NestedNodes(item.blocks), |targets|)
    ensures numbered
         == targets + TargetsOf([Node(item.target, ListItemTarget, item.source)] + NestedNodes(item.blocks), |targets|)
    decreases item
  {
    hide NestedNodes, SameNested;
    var id := |targets|;
    var nested;
    nested, numbered := AssignNested(item.blocks, targets + [Target(id, ListItemTarget, item.source)]);
    done := item.(target := Some(id), blocks := nested);
    NumberedConcat([Node(item.target, ListItemTarget, item.source)], NestedNodes(item.blocks), |targets|);
  }

  method AssignNested(blocks: seq<Block>, targets: seq<Target>) returns (done: seq<Block>, numbered: seq<Target>)
    ensures |done| == |blocks| && forall i :: 0 <= i < |blocks| ==> SameNested(blocks[i], done[i])
    ensures NestedNodes(done) == Numbered(NestedNodes(blocks), |targets|)
    ensures numbered == targets + TargetsOf(NestedNodes(blocks), |targets|)
    decreases blocks
  {
    hide NestedNodes, SameNested, NestedNodesOf;
    done, numbered := [], targets;
    NoItemNodes();
    for i := 0 to |blocks|
      invariant |done| == i && forall k :: 0 <= k < i ==> SameNested(blocks[k], done[k])
      invariant NestedNodes(done) == Numbered(NestedNodes(blocks[..i]), |targets|)
      invariant numbered == targets + TargetsOf(NestedNodes(blocks[..i]), |targets|)
    {
      TakePush(blocks, i);
      NestedNodesPush(blocks[..i], blocks[i]);
      NumberedConcat(NestedNodes(blocks[..i]), NestedNodesOf(blocks[i]), |targets|);
      var block;
      block, numbered := AssignNestedBlock(blocks[i], numbered);
      NestedNodesPush(done, block);
      done := done + [block];
    }
    assert blocks[..|blocks|] == blocks;
  }

  method AssignNestedBlock(block: Block, targets: seq<Target>) returns (done: Block, numbered: seq<Target>)
    ensures SameNested(block, done)
    ensures NestedNodesOf(done) == Numbered(NestedNodesOf(block), |targets|)
    ensures numbered == targets + TargetsOf(NestedNodesOf(block), |targets|)
    decreases block
  {
    done, numbered := block, targets;
    match block
    case Block(_, List(items), _) =>
      var renumbered;
      renumbered, numbered := AssignItems(items, targets);
      done := block.(kind := List(renumbered));
    case _ =>
  }

  function HeadingOf(block: Block): seq<OutlineEntry> {
    match block
    case Block(source, Heading(level, content), Some(id)) => [OutlineEntry(level, content, source, id)]
    case _ => []
  }

  /** The outline of numbered blocks: their headings, in order. */
  function Headings(blocks: seq<Block>): seq<OutlineEntry> {
    if blocks == [] then [] else Headings(blocks[..|blocks| - 1]) + HeadingOf(blocks[|blocks| - 1])
  }

  lemma HeadingsPush(blocks: seq<Block>, block: Block)
    ensures Headings(blocks + [block]) == Headings(blocks) + HeadingOf(block)
  {
    assert (blocks + [block])[..|blocks|] == blocks;
  }

  lemma {:induction false} HeadingsConcat(a: seq<Block>, b: seq<Block>)
    ensures Headings(a + b) == Headings(a) + Headings(b)
    decreases |b|
  {
    hide HeadingOf;
    if b == [] {
      assert a + b == a;
    } else {
      HeadingsConcat(a, b[..|b| - 1]);
      assert (a + b)[..|a + b| - 1] == a + b[..|b| - 1];
    }
  }

  method AssignBlock(block: Block, targets: seq<Target>, outline: seq<OutlineEntry>)
    returns (done: Block, numbered: seq<Target>, headings: seq<OutlineEntry>)
    ensures SameBlock(block, done)
    ensures NodesOf(done) == Numbered(NodesOf(block), |targets|)
    ensures numbered == targets + TargetsOf(NodesOf(block), |targets|)
    ensures headings == outline + HeadingOf(done)
  {
    hide ItemNodes, SameItems;
    var id := |targets|;
    done, numbered, headings := block, targets, outline;
    match block.kind
    case Heading(level, content) =>
      numbered := targets + [Target(id, HeadingTarget, block.source)];
      headings := outline + [OutlineEntry(level, content, block.source, id)];
      done := block.(target := Some(id));
    case Paragraph(content) =>
      numbered := targets + [Target(id, ParagraphTarget, block.source)];
      done := block.(target := Some(id));
    case List(items) =>
      var renumbered;
      renumbered, numbered := AssignItems(items, targets);
      done := block.(kind := List(renumbered), target := None);
    case BlockQuote(children) =>
      numbered := targets + [Target(id, BlockQuoteTarget, block.source)];
      done := block.(target := Some(id));
    case Code(code) =>
      var renumbered;
      renumbered, numbered := AssignCode(code, targets);
      done := block.(kind := Code(renumbered), target := Some(id));
    case Table(rows) =>
      var renumbered;
      renumbered, numbered := AssignRows(rows, targets);
      done := block.(kind := Table(renumbered), target := None);
    case HtmlFallback(content) =>
      done := block.(target := None);
    case Rule =>
      done := block.(target := None);
  }

  method AssignRows(rows: seq<TableRow>, targets: seq<Target>) returns (done: seq<TableRow>, numbered: seq<Target>)
    ensures |done| == |rows| && forall i :: 0 <= i < |rows| ==> done[i] == rows[i].(target := Some(|targets| + i))
    ensures RowNodes(done) == Numbered(RowNodes(rows), |targets|)
    ensures numbered == targets + TargetsOf(RowNodes(rows), |targets|)
  {
    done, numbered := [], targets;
    for i := 0 to |rows|
      invariant |done| == i && forall k :: 0 <= k < i ==> done[k] == rows[k].(target := Some(|targets| + k))
      invariant |numbered| == |targets| + i && numbered[..|targets|] == targets
      invariant forall k :: 0 <= k < i ==>
                numbered[|targets| + k] == Target(|targets| + k, TableRowTarget, rows[k].source)
    {
      var id := |numbered|;
      done := done + [rows[i].(target := Some(id))];
      numbered := numbered + [Target(id, TableRowTarget, rows[i].source)];
    }
  }

  method AssignCode(code: CodeBlock, targets: seq<Target>) returns (done: CodeBlock, numbered: seq<Target>)
    ensures done == code.(target := Some(|targets|), body := AimLines(code.body, |targets|, 0))
    ensures CodeNodes(done) == Numbered(CodeNodes(code), |targets|)
    ensures numbered == targets + TargetsOf(CodeNodes(code), |targets|)
  {
    var base := |targets|;
    numbered := targets + [Target(base, CodeBlockTarget, code.source)];
    var lines := [];
    for i := 0 to |code.body.lines|
      invariant |lines| == i && forall k :: 0 <= k < i ==> lines[k] == Aim(code.body.lines[k], k, base, 0)
      invariant |numbered| == base + 1 + i
                && numbered[..base + 1] == targets + [Target(base, CodeBlockTarget, code.source)]
      invariant forall k :: 0 <= k < i ==>
                  numbered[base + 1 + k] == Target(base + 1 + k, CodeLineTarget, code.body.lines[k].source)
    {
      var id := |numbered|;
      lines := lines + [code.body.lines[i].(target := Some(id))];
      numbered := numbered + [Target(id, CodeLineTarget, code.body.lines[i].source)];
    }
    done := code.(target := Some(base), body := Body(code.body.text, lines));
    assert done.body == AimLines(code.body, base, 0);
    var nodes := CodeNodes(code);
    assert numbered[|targets|..] == TargetsOf(nodes, base);
    assert numbered == targets + numbered[|targets|..];
  }

  /** Numbers every commentable node of `blocks` after the targets already there, and records the
      headings. */
  method AssignTargets(blocks: seq<Block>, targets: seq<Target>, outline: seq<OutlineEntry>)
    returns (done: seq<Block>, numbered: seq<Target>, headings: seq<OutlineEntry>)
    ensures AssignedFrom(blocks, done, |targets|)
    ensures numbered == targets + TargetsOf(Nodes(blocks), |targets|)
    ensures headings == outline + Headings(done)
  {
    hide Nodes, Headings, NodesOf, SameBlock, HeadingOf;
    done, numbered, headings := [], targets, outline;
    NoNodes();
    for i := 0 to |blocks|
      invariant |done| == i
      invariant forall k :: 0 <= k < i ==>
                SameBlock(blocks[k], done[k]) && SameSources(NodesOf(blocks[k]), NodesOf(done[k]))
      invariant Nodes(done) == Numbered(Nodes(blocks[..i]), |targets|)
      invariant numbered == targets + TargetsOf(Nodes(blocks[..i]), |targets|)
      invariant headings == outline + Headings(done)
    {
      TakePush(blocks, i);
      NodesPush(blocks[..i], blocks[i]);
      NumberedConcat(Nodes(blocks[..i]), NodesOf(blocks[i]), |targets|);
      var block;
      block, numbered, headings := AssignBlock(blocks[i], numbered, headings);
      NodesPush(done, block);
      HeadingsPush(done, block);
      done := done + [block];
    }
    assert blocks[..|blocks|] == blocks;
  }
}
