/**
 Comments on a Markdown document and their reattachment to a new version of it: which target an anchor
 resolves to, what that makes of each comment, and when doing it twice is doing it once.
 */
module MarkdownReviews {
  import opened Bytes
  import opened Targets
  import opened MarkdownAnchors

  const U64_MAX: nat := 0xFFFF_FFFF_FFFF_FFFF

  /** A line of a code block: the digest of its text, and its target. */
  datatype CodeLineView = CodeLineView(content: nat, target: Option<nat>)

  type Context = nat

  /** A document as a review sees it: its targets and what it says of them, the lines of its code blocks,
      and the anchor and the comment context it makes for a target. */
  datatype Reviewed = Reviewed(targets: seq<Target>, describe: Describe, codeLines: nat -> Option<seq<CodeLineView>>,
                               anchorOf: nat -> Option<Anchor>, contextOf: (nat, Anchor) -> Option<Context>)

  datatype MarkdownComment = MarkdownComment(id: nat, anchor: Anchor, body: string, context: Context, outdated: bool)

  // ---- resolving an anchor -----------------------------------------------

  function Matches(lines: seq<CodeLineView>, content: nat): (r: seq<bool>)
    ensures |r| == |lines| && forall i :: 0 <= i < |r| ==> r[i] == (lines[i].content == content)
  {
    seq(|lines|, i requires 0 <= i < |lines| => lines[i].content == content)
  }

  /** A code line is the line at its old index if that still reads the same, else the nearest one that does. */
  ghost predicate LineFound(lines: seq<CodeLineView>, index: nat, content: nat, found: Option<nat>) {
    if index < |lines| && lines[index].content == content then found == lines[index].target
    else if exists i: nat :: IsNearestLine(Matches(lines, content), index, i) then
      exists i: nat :: IsNearestLine(Matches(lines, content), index, i) && found == lines[i].target
    else found == None
  }

  ghost predicate BlockFound(document: Reviewed, block: BlockAnchor, found: Option<nat>) {
    exists tier :: FoundAt(tier, document.targets, block, document.describe, found)
  }

  ghost predicate AnchorFound(document: Reviewed, anchor: Anchor, found: Option<nat>) {
    match anchor
    case OfBlock(block) => BlockFound(document, block, found)
    case OfCodeLine(block, line, _, content, _) =>
      exists b: Option<nat> :: BlockFound(document, block, b) && LineOfBlockFound(document, b, line, content, found)
  }

  ghost predicate LineOfBlockFound(document: Reviewed, block: Option<nat>, line: nat, content: nat,
                                   found: Option<nat>)
  {
    if block.Some? && document.codeLines(block.value).Some?
        then LineFound(document.codeLines(block.value).value, line, content, found)
    else found == None
  }

  method ResolveAnchor(document: Reviewed, anchor: Anchor) returns (found: Option<nat>)
    ensures AnchorFound(document, anchor, found)
  {
    hide FoundAt;
    ghost var tier;
    found, tier := ResolveBlock(document.targets, anchor.block, document.describe);
    assert BlockFound(document, anchor.block, found);
    if anchor.OfBlock? {
      return;
    }
    ghost var block := found;
    if found.None? {
      assert LineOfBlockFound(document, block, anchor.line, anchor.content, found);
      return;
    }
    var lines := document.codeLines(found.value);
    if lines.None? {
      found := None;
    } else if anchor.line < |lines.value| && lines.value[anchor.line].content == anchor.content {
      found := lines.value[anchor.line].target;
    } else {
      var nearest := NearestLineIndex(Matches(lines.value, anchor.content), anchor.line);
      found := if nearest.Some? then lines.value[nearest.value].target else None;
    }
    assert LineOfBlockFound(document, block, anchor.line, anchor.content, found);
  }

  lemma LineFoundOnce(lines: seq<CodeLineView>, index: nat, content: nat, a: Option<nat>, b: Option<nat>)
    requires LineFound(lines, index, content, a) && LineFound(lines, index, content, b)
    ensures a == b
  {
  }

  lemma BlockFoundOnce(document: Reviewed, block: BlockAnchor, a: Option<nat>, b: Option<nat>)
    requires BlockFound(document, block, a) && BlockFound(document, block, b)
    ensures a == b
  {
    hide FoundAt;
    var t :| FoundAt(t, document.targets, block, document.describe, a);
    var u :| FoundAt(u, document.targets, block, document.describe, b);
    FoundOnce(document.targets, block, document.describe, t, a, u, b);
  }

  /** An anchor resolves in one way. */
  lemma AnchorFoundOnce(document: Reviewed, anchor: Anchor, a: Option<nat>, b: Option<nat>)
    requires AnchorFound(document, anchor, a) && AnchorFound(document, anchor, b)
    ensures a == b
  {
    hide BlockFound, LineFound;
    match anchor
    case OfBlock(block) => BlockFoundOnce(document, block, a, b);
    case OfCodeLine(block, line, _, content, _) =>
      var x: Option<nat> :| BlockFound(document, block, x) && LineOfBlockFound(document, x, line, content, a);
      var y: Option<nat> :| BlockFound(document, block, y) && LineOfBlockFound(document, y, line, content, b);
      BlockFoundOnce(document, block, x, y);
      if x.Some? && document.codeLines(x.value).Some? {
        LineFoundOnce(document.codeLines(x.value).value, line, content, a, b);
      }
  }

  // ---- reconciling -------------------------------------------------------

  /** What becomes of a comment whose anchor resolves like this. */
  function Settled(document: Reviewed, comment: MarkdownComment, found: Option<nat>): MarkdownComment {
    if found.None? || document.anchorOf(found.value).None? then comment.(outdated := true)
    else
      var anchor := document.anchorOf(found.value).value;
      var context := document.contextOf(found.value, anchor);
      comment.(anchor := anchor, context := if context.Some? then context.value else comment.context, outdated := false)
  }

  ghost predicate Reattached(document: Reviewed, before: MarkdownComment, after: MarkdownComment) {
    exists found :: AnchorFound(document, before.anchor, found) && after == Settled(document, before, found)
  }

  ghost predicate AllReattached(document: Reviewed, before: seq<MarkdownComment>, after: seq<MarkdownComment>) {
    |before| == |after| && forall i :: 0 <= i < |before| ==> Reattached(document, before[i], after[i])
  }

  class MarkdownReview {
    var comments: seq<MarkdownComment>
    var nextId: nat

    /** Ids are given out in turn, whatever was cleared; until they run out no two comments share one. */
    ghost predicate Valid()
      reads this
    {
      && nextId <= U64_MAX
      && (forall i :: 0 <= i < |comments| ==> comments[i].id <= nextId)
      && (nextId < U64_MAX ==>
            && (forall i :: 0 <= i < |comments| ==> comments[i].id < nextId)
            && forall i, j :: 0 <= i < j < |comments| ==> comments[i].id != comments[j].id)
    }

    constructor ()
      ensures Valid() && comments == [] && nextId == 0
    {
      comments, nextId := [], 0;
    }

    method AddComment(anchor: Anchor, context: Context, body: string) returns (id: nat)
      requires Valid()
      modifies this
      ensures Valid() && id == old(nextId) && nextId == Min(old(nextId) + 1, U64_MAX)
      ensures comments == old(comments) + [MarkdownComment(id, anchor, body, context, false)]
      ensures old(nextId) < U64_MAX ==> forall i :: 0 <= i < |old(comments)| ==> old(comments)[i].id != id
    {
      id := nextId;
      nextId := Min(nextId + 1, U64_MAX);
      comments := comments + [MarkdownComment(id, anchor, body, context, false)];
    }

    method Clear()
      requires Valid()
      modifies this`comments
      ensures Valid() && comments == []
    {
      comments := [];
    }

    /** Every comment goes to the target its anchor resolves to, or stays where it is and is outdated; the
        answer says whether any of them is different. */
    method Reconcile(document: Reviewed) returns (changed: bool)
      requires Valid()
      modifies this`comments
      ensures Valid() && AllReattached(document, old(comments), comments)
      ensures forall i :: 0 <= i < |comments| ==>
              comments[i].id == old(comments)[i].id && comments[i].body == old(comments)[i].body
      ensures changed <==> comments != old(comments)
    {
      hide AnchorFound;
      changed := false;
      ghost var before := comments;
      for i := 0 to |comments|
        invariant |comments| == |before| && comments[i..] == before[i..]
        invariant forall j :: 0 <= j < i ==> Reattached(document, before[j], comments[j])
        invariant forall j :: 0 <= j < |comments| ==>
                  comments[j].id == before[j].id && comments[j].body == before[j].body
        invariant changed <==> exists j :: 0 <= j < i && comments[j] != before[j]
      {
        var comment := comments[i];
        assert comment == comments[i..][0] == before[i];
        var found := ResolveAnchor(document, comment.anchor);
        ghost var was := comments;
        if found.None? || document.anchorOf(found.value).None? {
          changed := changed || !comment.outdated;
          comment := comment.(outdated := true);
        } else {
          var anchor := document.anchorOf(found.value).value;
          var context := document.contextOf(found.value, anchor);
          if context.Some? && context.value != comment.context {
            comment := comment.(context := context.value);
            changed := true;
          }
          if anchor != comment.anchor {
            comment := comment.(anchor := anchor);
            changed := true;
          }
          changed := changed || comment.outdated;
          comment := comment.(outdated := false);
        }
        comments := comments[i := comment];
        assert Reattached(document, before[i], comment);
        assert forall j :: i < j < |comments| ==> comments[j] == was[i..][j - i];
        assert comments[i] == comment;
      }
    }
  }

  // ---- reconciling twice -------------------------------------------------

  /** The anchors a document makes say what it says: a block's digests and headings, and for a line of a
      code block where in the block it is. */
  ghost predicate WellAnchored(document: Reviewed) {
    && (forall i :: 0 <= i < |document.targets| ==> document.targets[i].id == i)
    && (forall t: nat, block :: document.anchorOf(t) == Some(OfBlock(block)) ==> DescribesBlock(document, t, block))
    && forall t: nat, anchor :: document.anchorOf(t) == Some(anchor) && anchor.OfCodeLine? ==>
        DescribesLine(document, t, anchor)
  }

  ghost predicate DescribesBlock(document: Reviewed, t: nat, block: BlockAnchor) {
    && t < |document.targets| && document.targets[t].kind == block.kind
    && document.targets[t].source.lines == block.lines
    && document.describe(t) == Described(block.content, block.context, block.path)
  }

  ghost predicate DescribesLine(document: Reviewed, t: nat, anchor: Anchor)
    requires anchor.OfCodeLine?
  {
    exists b: nat :: document.anchorOf(b) == Some(OfBlock(anchor.block))
        && HoldsLine(document.codeLines(b), t, anchor.line, anchor.content)
  }

  predicate HoldsLine(lines: Option<seq<CodeLineView>>, t: nat, line: nat, content: nat) {
    lines.Some? && line < |lines.value| && lines.value[line] == CodeLineView(content, Some(t))
  }

  /** Another target of its kind starts on the line of target `t` and has the same context. */
  ghost predicate Ambiguous(document: Reviewed, t: nat)
    requires t < |document.targets|
  {
    exists u: nat :: u < |document.targets| && u != t && document.targets[u].kind == document.targets[t].kind
                     && document.describe(u).context == document.describe(t).context
                     && document.targets[u].source.lines.start == document.targets[t].source.lines.start
  }

  /** The context digest is taken over the content too, and headings follow from the line: targets on one line
      that share the first share all. */
  ghost predicate ContextCovers(document: Reviewed) {
    forall t: nat, u: nat :: t < |document.targets| && u < |document.targets|
                             && document.targets[t].source.lines.start == document.targets[u].source.lines.start
                             && document.describe(t).context == document.describe(u).context ==>
                               document.describe(t).content == document.describe(u).content
                                   && document.describe(t).path == document.describe(u).path
  }

  lemma IdsApart(document: Reviewed)
    requires WellAnchored(document)
    ensures forall i, j :: 0 <= i < j < |document.targets| ==> document.targets[i].id != document.targets[j].id
  {
    hide DescribesBlock, DescribesLine;
  }

  lemma TwinIsAmbiguous(document: Reviewed, tier: Tier, t: nat, block: BlockAnchor)
    requires WellAnchored(document) && DescribesBlock(document, t, block)
    ensures Qualifies(tier, document.targets[t], block, document.describe)
    ensures Ambiguous(document, t) && ContextCovers(document) ==>
            HasTwin(tier, document.targets, block, document.describe, document.targets[t])
    ensures HasTwin(Contextual, document.targets, block, document.describe, document.targets[t]) ==>
            Ambiguous(document, t)
  {
    var targets := document.targets;
    assert targets[t].id == t;
    if Ambiguous(document, t) && ContextCovers(document) {
      var u: nat :| u < |targets| && u != t && targets[u].kind == targets[t].kind
                    && document.describe(u).context == document.describe(t).context
                    && targets[u].source.lines.start == targets[t].source.lines.start;
      assert targets[u].id == u && targets[u] in targets;
      assert Qualifies(tier, targets[u], block, document.describe);
    }
    if HasTwin(Contextual, targets, block, document.describe, targets[t]) {
      var other :| other in targets && other != targets[t] && Qualifies(Contextual, other, block, document.describe)
                   && other.source.lines.start == targets[t].source.lines.start;
      var u: nat :| u < |targets| && targets[u] == other;
      assert targets[u].id == u;
    }
  }

  /** A block's own anchor leads back to it if and only if no other target of its kind on its first line has
      its context; otherwise it leads nowhere. */
  lemma BlockComesBackIff(document: Reviewed, t: nat, block: BlockAnchor)
    requires WellAnchored(document) && ContextCovers(document) && document.anchorOf(t) == Some(OfBlock(block))
    ensures t < |document.targets|
    ensures BlockFound(document, block, Some(t)) <==> !Ambiguous(document, t)
    ensures Ambiguous(document, t) ==> BlockFound(document, block, None)
  {
    assert DescribesBlock(document, t, block);
    hide Qualifies, Ambiguous, HasTwin, Candidates, NoneResolves, Resolves;
    var targets := document.targets;
    assert targets[t].id == t;
    IdsApart(document);
    hide WellAnchored, ContextCovers;
    TwinIsAmbiguous(document, Contextual, t, block);
    TwinIsAmbiguous(document, UnderSameHeadings, t, block);
    TwinIsAmbiguous(document, SameContent, t, block);
    UnmovedResolvesIff(Contextual, targets, block, document.describe, targets[t]);
    if Ambiguous(document, t) {
      UnmovedResolvesIff(UnderSameHeadings, targets, block, document.describe, targets[t]);
      UnmovedResolvesIff(SameContent, targets, block, document.describe, targets[t]);
      assert FoundAt(None, targets, block, document.describe, None);
      if BlockFound(document, block, Some(t)) {
        BlockFoundOnce(document, block, Some(t), None);
      }
    } else {
      TierFinds(targets, block, document.describe, targets[t]);
    }
  }

  lemma TierFinds(targets: seq<Target>, block: BlockAnchor, describe: Describe, target: Target)
    requires Resolves(Contextual, targets, block, describe, target)
    ensures FoundAt(Some(Contextual), targets, block, describe, Some(target.id))
  {
    hide Resolves, NoneResolves;
  }

  lemma LineComesBack(document: Reviewed, t: nat, anchor: Anchor, b: nat)
    requires anchor.OfCodeLine? && BlockFound(document, anchor.block, Some(b))
             && HoldsLine(document.codeLines(b), t, anchor.line, anchor.content)
    ensures AnchorFound(document, anchor, Some(t))
  {
    hide BlockFound;
    assert LineOfBlockFound(document, Some(b), anchor.line, anchor.content, Some(t));
  }

  /** When no block is ambiguous, every anchor the document makes resolves to the target it was made for. */
  lemma AnchorsComeBack(document: Reviewed, t: nat, anchor: Anchor)
    requires WellAnchored(document) && ContextCovers(document) && document.anchorOf(t) == Some(anchor)
    requires forall b: nat :: b < |document.targets| ==> !Ambiguous(document, b)
    ensures AnchorFound(document, anchor, Some(t))
  {
    hide BlockFound, Ambiguous, ContextCovers, DescribesBlock;
    match anchor
    case OfBlock(block) => BlockComesBackIff(document, t, block);
    case OfCodeLine(block, line, _, content, _) =>
      assert DescribesLine(document, t, anchor);
      var b: nat :| document.anchorOf(b) == Some(OfBlock(anchor.block))
          && HoldsLine(document.codeLines(b), t, anchor.line, anchor.content);
      BlockComesBackIff(document, b, block);
      LineComesBack(document, t, anchor, b);
  }

  lemma SettledOnce(document: Reviewed, before: MarkdownComment, once: MarkdownComment, twice: MarkdownComment)
    requires WellAnchored(document) && ContextCovers(document)
    requires forall b: nat :: b < |document.targets| ==> !Ambiguous(document, b)
    requires Reattached(document, before, once) && Reattached(document, once, twice)
    ensures twice == once
  {
    hide AnchorFound, WellAnchored, ContextCovers, Ambiguous;
    var found :| AnchorFound(document, before.anchor, found) && once == Settled(document, before, found);
    var again :| AnchorFound(document, once.anchor, again) && twice == Settled(document, once, again);
    if found.Some? && document.anchorOf(found.value).Some? {
      AnchorsComeBack(document, found.value, once.anchor);
      AnchorFoundOnce(document, once.anchor, again, found);
    } else {
      AnchorFoundOnce(document, once.anchor, again, found);
    }
  }

  /** Reconciling a second time with the same document changes nothing, unless a block of the document
      cannot be told from another by kind, context and first line. */
  lemma SecondReconcileChangesNothing(document: Reviewed, before: seq<MarkdownComment>, once: seq<MarkdownComment>,
                                      twice: seq<MarkdownComment>)
    requires WellAnchored(document) && ContextCovers(document)
    requires forall b: nat :: b < |document.targets| ==> !Ambiguous(document, b)
    requires AllReattached(document, before, once) && AllReattached(document, once, twice)
    ensures twice == once
  {
    hide Reattached, WellAnchored, ContextCovers, Ambiguous;
    forall i | 0 <= i < |once|
      ensures twice[i] == once[i]
    {
      SettledOnce(document, before[i], once[i], twice[i]);
    }
  }

  /** And then it does: a comment just attached to such a block is outdated the next time. */
  lemma AmbiguousBlockIsLost(document: Reviewed, t: nat, block: BlockAnchor, comment: MarkdownComment,
                             again: MarkdownComment)
    requires WellAnchored(document) && ContextCovers(document) && document.anchorOf(t) == Some(OfBlock(block))
    requires t < |document.targets| && Ambiguous(document, t)
    requires comment.anchor == OfBlock(block) && !comment.outdated && Reattached(document, comment, again)
    ensures again == comment.(outdated := true) != comment
  {
    hide BlockFound, WellAnchored, ContextCovers, Ambiguous;
    BlockComesBackIff(document, t, block);
    var found :| AnchorFound(document, comment.anchor, found) && again == Settled(document, comment, found);
    BlockFoundOnce(document, block, found, None);
  }
}
