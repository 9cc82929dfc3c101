/**
 A document with ambiguous blocks: four dashes and an `x` on one line are four lists, one in the other. The
 first three items have no text of their own, and nothing tells the first two apart.
 */
module NestedDashes {
  import opened Bytes
  import opened LineIndexing
  import opened CodeBlocks
  import opened Targets
  import opened MarkdownAnchors
  import opened MarkdownReviews
  import opened AnchorTexts

  function Place(start: nat): SourceRange { SourceRange(Range(start, 9), LineRange(1, 1)) }

  /** The list that starts at byte `start` with one item, whose target is `id`. */
  function Nested(start: nat, content: Source, inside: seq<Block>, id: nat): Block {
    Block(Place(start), List([ListItem(Place(start), content, inside, Some(id))]), None)
  }

  const FOURTH: Block := Nested(6, [120], [], 3)
  const THIRD: Block := Nested(4, [], [FOURTH], 2)
  const SECOND: Block := Nested(2, [], [THIRD], 1)
  const FIRST: Block := Nested(0, [], [SECOND], 0)
  const TARGETS: seq<Target> :=
    [Target(0, ListItemTarget, Place(0)), Target(1, ListItemTarget, Place(2)), Target(2, ListItemTarget, Place(4)),
     Target(3, ListItemTarget, Place(6))]
  const DASHES: Document := Document(None, [FIRST], TARGETS, [])

  lemma NestedNodesAre(start: nat, content: Source, inside: seq<Block>, id: nat)
    ensures NodesOf(Nested(start, content, inside, id)) == NestedNodesOf(Nested(start, content, inside, id))
         == [Node(Some(id), ListItemTarget, Place(start))] + NestedNodes(inside)
  {
    var items := Nested(start, content, inside, id).kind.items;
    assert items[..0] == [];
    assert ItemNodes(items[..0]) == [];
  }

  lemma OneNested(block: Block)
    ensures NestedNodes([block]) == NestedNodesOf(block) && Nodes([block]) == NodesOf(block)
  {
    hide NestedNodesOf, NodesOf;
    assert [block][..0] == [];
    NoItemNodes();
    NoNodes();
  }

  lemma AreNumbered()
    ensures TargetsMatch(DASHES.blocks, TARGETS)
  {
    hide NodesOf, NestedNodesOf, NestedNodes, Nodes, Nested;
    NoItemNodes();
    NestedNodesAre(6, [120], [], 3);
    OneNested(FOURTH);
    NestedNodesAre(4, [], [FOURTH], 2);
    OneNested(THIRD);
    NestedNodesAre(2, [], [THIRD], 1);
    OneNested(SECOND);
    NestedNodesAre(0, [], [SECOND], 0);
    OneNested(FIRST);
  }

  lemma AreBuilt()
    ensures Built(DASHES)
  {
    hide TargetsMatch;
    AreNumbered();
    assert BareBlocks([]);
    assert BareItems(FOURTH.kind.items) && BareBlock(FOURTH) && BareBlocks([FOURTH]);
    assert BareItems(THIRD.kind.items) && BareBlock(THIRD) && BareBlocks([THIRD]);
    assert BareItems(SECOND.kind.items) && BareBlock(SECOND) && BareBlocks([SECOND]);
    assert BareItems(FIRST.kind.items);
  }

  /** A search passes through a list whose item is not the target. */
  lemma FindInside(start: nat, content: Source, inside: seq<Block>, id: nat, wanted: nat)
    ensures FindInBlocks([Nested(start, content, inside, id)], wanted) == if id == wanted then Some(content)
            else FindInBlocks(inside, wanted)
  {
    var block := Nested(start, content, inside, id);
    var items := block.kind.items;
    assert items[1..] == [] && [block][1..] == [];
    assert FindInItems(items, wanted) == if id == wanted then Some(content) else FindInBlocks(inside, wanted);
    assert FindInBlock(block, wanted) == FindInItems(items, wanted);
  }

  lemma EmptyTexts()
    ensures TextOf(DASHES, 0) == TextOf(DASHES, 1) == TextOf(DASHES, 2) == Some([])
  {
    hide FindInBlocks, Nested;
    FindInside(0, [], [SECOND], 0, 0);
    FindInside(0, [], [SECOND], 0, 1);
    FindInside(0, [], [SECOND], 0, 2);
    FindInside(2, [], [THIRD], 1, 1);
    FindInside(2, [], [THIRD], 1, 2);
    FindInside(4, [], [FOURTH], 2, 2);
  }

  lemma AreTwins()
    ensures Twins(DASHES, 0, 1)
  {
    hide TextOf, Normalized;
    EmptyTexts();
    NothingNormalized();
  }

  lemma NothingNormalized()
    ensures Normalized(ListItemTarget, []) == []
  {
  }

  /** The first item can be commented on. */
  lemma FirstItemHasAnchor(digest: Digest, snapshot: SourceRange -> string, contextOf: (nat, Anchor) -> Option<Context>)
    ensures Review(DASHES, digest, snapshot, contextOf).anchorOf(0).Some?
  {
    hide TextOf, DescribedAt;
    EmptyTexts();
  }

  /** A comment on the first item is outdated by the next reconciliation with the same document. */
  lemma FirstItemIsLost(digest: Digest, snapshot: SourceRange -> string, contextOf: (nat, Anchor) -> Option<Context>,
                        comment: MarkdownComment, again: MarkdownComment)
    requires Injective(digest)
    requires var review := Review(DASHES, digest, snapshot, contextOf);
             && review.anchorOf(0) == Some(comment.anchor) && !comment.outdated && Reattached(review, comment, again)
    ensures again == comment.(outdated := true)
    ensures Ambiguous(Review(DASHES, digest, snapshot, contextOf), 0)
  {
    hide WellAnchored, ContextCovers, Ambiguous, Reattached, Twins, Built, TextOf, DescribedAt;
    var review := Review(DASHES, digest, snapshot, contextOf);
    AreBuilt();
    AnchorsAreWellMade(DASHES, digest, snapshot, contextOf);
    ContextsCover(DASHES, digest, snapshot, contextOf);
    AreTwins();
    AmbiguousIffTwin(DASHES, digest, snapshot, contextOf, 0);
    EmptyTexts();
    AmbiguousBlockIsLost(review, 0, comment.anchor.block, comment, again);
  }
}
