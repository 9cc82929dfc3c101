/**
 Finding a target again: the headings it stands under, the target an anchor was made for, and the
 nearest target that will do.
 */
module MarkdownAnchors {
  import opened Bytes
  import opened LineIndexing
  import opened Targets

  // ---- heading paths -----------------------------------------------------

  /** No heading from `i + 1` up to `n` is of the same or a higher rank. */
  ghost predicate StaysOpen(outline: seq<OutlineEntry>, i: nat, n: nat)
    requires i < n <= |outline|
  {
    forall j :: i < j < n ==> outline[j].level > outline[i].level
  }

  /** Those of the first `k` headings that are still open at `n`, in order. */
  ghost function OpenAt(outline: seq<OutlineEntry>, k: nat, n: nat): seq<OutlineEntry>
    requires k <= n <= |outline|
  {
    if k == 0 then []
    else OpenAt(outline, k - 1, n) + if StaysOpen(outline, k - 1, n) then [outline[k - 1]] else []
  }

  ghost predicate LevelsAscend(path: seq<OutlineEntry>) {
    forall i, j :: 0 <= i < j < |path| ==> path[i].level < path[j].level
  }

  ghost function Below(path: seq<OutlineEntry>, level: nat): seq<OutlineEntry> {
    if path == [] then []
    else Below(path[..|path| - 1], level) + if path[|path| - 1].level < level then [path[|path| - 1]] else []
  }

  lemma {:induction false} OpenLevels(outline: seq<OutlineEntry>, k: nat, n: nat)
    requires k <= n <= |outline|
    ensures LevelsAscend(OpenAt(outline, k, n))
    ensures forall i :: 0 <= i < |OpenAt(outline, k, n)| && k < n ==> OpenAt(outline, k, n)[i].level < outline[k].level
  {
    if k > 0 {
      OpenLevels(outline, k - 1, n);
    }
    OpenBefore(outline, k, k, n);
  }

  /** Headings open past `j` are of a higher rank than heading `j`. */
  lemma {:induction false} OpenBefore(outline: seq<OutlineEntry>, k: nat, j: nat, n: nat)
    requires k <= j <= n <= |outline|
    ensures forall i :: 0 <= i < |OpenAt(outline, k, n)| && j < n ==> OpenAt(outline, k, n)[i].level < outline[j].level
  {
    if k > 0 {
      OpenBefore(outline, k - 1, j, n);
    }
  }

  /** A new heading closes those of the same or a lower rank. */
  lemma {:induction false} OpenNext(outline: seq<OutlineEntry>, k: nat, n: nat)
    requires k <= n < |outline|
    ensures OpenAt(outline, k, n + 1) == Below(OpenAt(outline, k, n), outline[n].level)
  {
    if k > 0 {
      OpenNext(outline, k - 1, n);
      assert StaysOpen(outline, k - 1, n + 1) <==>
             StaysOpen(outline, k - 1, n) && outline[n].level > outline[k - 1].level;
      var before := OpenAt(outline, k - 1, n);
      if StaysOpen(outline, k - 1, n) {
        BelowPush(before, outline[k - 1], outline[n].level);
      } else {
        assert before + [] == before && Below(before, outline[n].level) + [] == Below(before, outline[n].level);
      }
    }
  }

  lemma OpenWith(outline: seq<OutlineEntry>, n: nat)
    requires n < |outline|
    ensures OpenAt(outline, n + 1, n + 1) == Below(OpenAt(outline, n, n), outline[n].level) + [outline[n]]
  {
    OpenNext(outline, n, n);
  }

  lemma BelowPush(path: seq<OutlineEntry>, entry: OutlineEntry, level: nat)
    ensures Below(path + [entry], level) == Below(path, level) + if entry.level < level then [entry] else []
  {
    assert (path + [entry])[..|path|] == path;
  }

  /** Popping from the end is enough, for levels ascend along an open path. */
  lemma {:induction false} BelowIsPrefix(path: seq<OutlineEntry>, n: nat, level: nat)
    requires LevelsAscend(path) && n <= |path|
    requires n > 0 ==> path[n - 1].level < level
    requires forall i :: n <= i < |path| ==> path[i].level >= level
    ensures Below(path, level) == path[..n]
  {
    if path != [] {
      var init := path[..|path| - 1];
      if n == |path| {
        assert n > 1 ==> init[n - 2].level < path[n - 1].level;
        BelowIsPrefix(init, n - 1, level);
        assert path[..n] == init[..n - 1] + [path[n - 1]];
      } else {
        BelowIsPrefix(init, n, level);
        assert path[..n] == init[..n];
      }
    }
  }

  ghost predicate LinesAscend(outline: seq<OutlineEntry>) {
    forall i, j :: 0 <= i < j < |outline| ==> outline[i].source.lines.start <= outline[j].source.lines.start
  }

  /** The first `n` headings are those at or before a line. */
  ghost predicate AtOrBefore(outline: seq<OutlineEntry>, n: nat, line: nat) {
    && n <= |outline|
    && (forall i :: 0 <= i < n ==> outline[i].source.lines.start <= line)
    && (forall i :: n <= i < |outline| ==> outline[i].source.lines.start > line)
  }

  /** The headings a line stands under: those at or before it that no later one of the same or a higher
      rank has closed. */
  method HeadingPath(outline: seq<OutlineEntry>, line: nat) returns (titles: seq<Source>, ghost n: nat)
    ensures n == HeadingsUpTo(outline, line) && titles == Titles(OpenAt(outline, n, n))
    ensures LinesAscend(outline) ==> AtOrBefore(outline, n, line)
  {
    var path := [];
    var i := 0;
    while i < |outline| && outline[i].source.lines.start <= line
      invariant i <= |outline| && path == OpenAt(outline, i, i)
      invariant forall j :: 0 <= j < i ==> outline[j].source.lines.start <= line
    {
      ghost var before := path;
      while path != [] && path[|path| - 1].level >= outline[i].level
        invariant path <= before && forall j :: |path| <= j < |before| ==> before[j].level >= outline[i].level
        decreases |path|
      {
        path := path[..|path| - 1];
      }
      hide OpenAt, Below;
      OpenLevels(outline, i, i);
      BelowIsPrefix(before, |path|, outline[i].level);
      OpenWith(outline, i);
      path := path + [outline[i]];
      i := i + 1;
    }
    n := i;
    UpToIs(outline, line, n);
    titles := Titles(path);
  }

  function Titles(path: seq<OutlineEntry>): (r: seq<Source>)
    ensures |r| == |path|
  {
    seq(|path|, i requires 0 <= i < |path| => path[i].title)
  }

  /** How many headings come before the first one that starts below `line`. */
  function HeadingsUpTo(outline: seq<OutlineEntry>, line: nat): (r: nat)
    ensures r <= |outline|
  {
    if outline == [] then 0
    else
      var before := HeadingsUpTo(outline[..|outline| - 1], line);
      if before == |outline| - 1 && outline[|outline| - 1].source.lines.start <= line then |outline| else before
  }

  lemma {:induction false} UpToIs(outline: seq<OutlineEntry>, line: nat, n: nat)
    requires n <= |outline| && forall i :: 0 <= i < n ==> outline[i].source.lines.start <= line
    requires n < |outline| ==> outline[n].source.lines.start > line
    ensures HeadingsUpTo(outline, line) == n
  {
    if outline != [] {
      var init := outline[..|outline| - 1];
      UpToIs(init, line, Min(n, |init|));
    }
  }

  /** Along a heading path the ranks descend, so each heading is inside the one before it. */
  lemma PathDescends(outline: seq<OutlineEntry>, n: nat)
    requires n <= |outline|
    ensures LevelsAscend(OpenAt(outline, n, n))
  {
    OpenLevels(outline, n, n);
  }

  // ---- the nearest target ------------------------------------------------

  function Away(target: Target, line: nat): nat {
    if target.source.lines.start < line then line - target.source.lines.start else target.source.lines.start - line
  }

  /** Closer to a line than every other target. */
  ghost predicate IsNearest(targets: seq<Target>, line: nat, i: nat) {
    i < |targets| && forall j :: 0 <= j < |targets| && j != i ==> Away(targets[j], line) > Away(targets[i], line)
  }

  /** A target only when it is the one closest: none when two are equally close. */
  method NearestTarget(targets: seq<Target>, line: nat) returns (found: Option<nat>)
    ensures found.Some? ==> exists i: nat :: IsNearest(targets, line, i) && targets[i].id == found.value
    ensures found.None? ==> forall i: nat :: !IsNearest(targets, line, i)
  {
    var nearest: Option<nat> := None;
    var tied := false;
    for i := 0 to |targets|
      invariant nearest.None? ==> i == 0 && !tied
      invariant nearest.Some? ==> nearest.value < i
                                  && forall j :: 0 <= j < i ==>
                                      Away(targets[j], line) >= Away(targets[nearest.value], line)
      invariant nearest.Some? && !tied ==>
                  forall j :: 0 <= j < i && j != nearest.value ==>
                      Away(targets[j], line) > Away(targets[nearest.value], line)
      invariant tied ==> nearest.Some? && exists j :: 0 <= j < i && j != nearest.value
                                                    && Away(targets[j], line) == Away(targets[nearest.value], line)
    {
      if nearest.None? || Away(targets[i], line) < Away(targets[nearest.value], line) {
        nearest, tied := Some(i), false;
      } else if Away(targets[i], line) == Away(targets[nearest.value], line) {
        tied := true;
      }
    }
    if tied || nearest.None? {
      return None;
    }
    assert IsNearest(targets, line, nearest.value);
    return Some(targets[nearest.value].id);
  }

  /** A line of a code block that reads the same and is closer to where the line was than any other. */
  ghost predicate IsNearestLine(matches: seq<bool>, index: nat, i: nat) {
    && i < |matches| && matches[i]
    && forall j :: 0 <= j < |matches| && j != i && matches[j] ==> Apart(j, index) > Apart(i, index)
  }

  function Apart(a: nat, b: nat): nat { if a < b then b - a else a - b }

  method NearestLineIndex(matches: seq<bool>, index: nat) returns (found: Option<nat>)
    ensures found.Some? ==> IsNearestLine(matches, index, found.value)
    ensures found.None? ==> forall i: nat :: !IsNearestLine(matches, index, i)
  {
    found := None;
    var tied := false;
    for i := 0 to |matches|
      invariant found.None? ==> !tied && forall j :: 0 <= j < i ==> !matches[j]
      invariant found.Some? ==> found.value < i && matches[found.value]
                                && forall j :: 0 <= j < i && matches[j] ==> Apart(j, index) >= Apart(found.value, index)
      invariant found.Some? && !tied ==>
                  forall j :: 0 <= j < i && matches[j] && j != found.value ==>
                      Apart(j, index) > Apart(found.value, index)
      invariant tied ==>
                found.Some?
                && exists j :: 0 <= j < i && matches[j] && j != found.value
                               && Apart(j, index) == Apart(found.value, index)
    {
      if matches[i] {
        if found.None? || Apart(i, index) < Apart(found.value, index) {
          found, tied := Some(i), false;
        } else if Apart(i, index) == Apart(found.value, index) {
          tied := true;
        }
      }
    }
    if tied {
      found := None;
    }
  }

  // ---- the exact target --------------------------------------------------

  datatype BlockAnchor = BlockAnchor(sourcePath: Option<Source>, kind: TargetKind, lines: LineRange, content: nat,
                                     context: nat, path: seq<Source>, snapshot: string)

  datatype Anchor =
    | OfBlock(block: BlockAnchor)
    | OfCodeLine(block: BlockAnchor, line: nat, sourceLine: Option<nat>, content: nat, snapshot: string)

  /** A document as anchoring sees it: its targets, the anchor it makes for each, and the target of each
      line of a code block. */
  datatype Anchored = Anchored(targets: seq<Target>, anchorOf: nat -> Option<Anchor>,
                               lineTarget: (nat, nat) -> Option<nat>)
  {
    /** Targets are in source order, ids are positions, and an anchor records its target's kind and lines,
        or those of the code block its line is in. */
    ghost predicate Valid() {
      && (forall i :: 0 <= i < |targets| ==> targets[i].id == i)
      && (forall i, j :: 0 <= i < j < |targets| ==> targets[i].source.lines.start <= targets[j].source.lines.start)
      && forall id: nat, anchor :: anchorOf(id) == Some(anchor) ==>
                                exists t: nat :: t < |targets| && Suits(t, anchor) && Wanted(t, anchor) == Some(id)
    }

    predicate Suits(t: nat, anchor: Anchor)
      requires t < |targets|
    {
      targets[t].kind == anchor.block.kind && targets[t].source.lines == anchor.block.lines
    }

    /** The target meant when a block target suits an anchor. */
    function Wanted(t: nat, anchor: Anchor): Option<nat>
      requires t < |targets|
    {
      match anchor
      case OfBlock(_) => Some(targets[t].id)
      case OfCodeLine(_, line, _, _, _) => lineTarget(t, line)
    }

    predicate Hits(t: nat, anchor: Anchor)
      requires t < |targets|
    {
      Suits(t, anchor) && Wanted(t, anchor).Some? && anchorOf(Wanted(t, anchor).value) == Some(anchor)
    }

    /** The first target at or after a line. */
    method PartitionPoint(line: nat) returns (first: nat)
      requires forall i, j :: 0 <= i < j < |targets| ==> targets[i].source.lines.start <= targets[j].source.lines.start
      ensures first <= |targets|
      ensures forall i :: 0 <= i < |targets| ==> (targets[i].source.lines.start < line <==> i < first)
    {
      var lo, hi := 0, |targets|;
      while lo < hi
        invariant lo <= hi <= |targets|
        invariant forall i :: 0 <= i < lo ==> targets[i].source.lines.start < line
        invariant forall i :: hi <= i < |targets| ==> targets[i].source.lines.start >= line
      {
        var mid := (lo + hi) / 2;
        if targets[mid].source.lines.start < line {
          lo := mid + 1;
        } else {
          hi := mid;
        }
      }
      first := lo;
    }

    /** Searching the targets on the anchor's first line finds what searching all of them would, and finds
        a target exactly when the document has one whose anchor this is. */
    method ExactTarget(anchor: Anchor) returns (found: Option<nat>)
      requires Valid()
      ensures found.Some? ==> anchorOf(found.value) == Some(anchor)
      ensures found.Some? ==> exists t: nat :: t < |targets| && Hits(t, anchor) && Wanted(t, anchor) == found
                                               && forall u: nat :: u < t ==> !Hits(u, anchor)
      ensures found.None? ==> forall id: nat :: anchorOf(id) != Some(anchor)
    {
      var line := anchor.block.lines.start;
      var t := PartitionPoint(line);
      while t < |targets| && targets[t].source.lines.start == line
        invariant t <= |targets| && forall u: nat :: u < t ==> !Hits(u, anchor)
        invariant t < |targets| ==> targets[t].source.lines.start >= line
      {
        if Suits(t, anchor) {
          var wanted := Wanted(t, anchor);
          if wanted.Some? && anchorOf(wanted.value) == Some(anchor) {
            assert Hits(t, anchor) && Wanted(t, anchor) == wanted;
            return wanted;
          }
        }
        t := t + 1;
      }
      NothingHits(anchor, t);
      return None;
    }

    /** When no target up to the last one on the anchor's first line hits, none does, and no target has the anchor. */
    lemma NothingHits(anchor: Anchor, t: nat)
      requires Valid() && t <= |targets| && forall u: nat :: u < t ==> !Hits(u, anchor)
      requires t < |targets| ==> targets[t].source.lines.start > anchor.block.lines.start
      ensures forall id: nat :: anchorOf(id) != Some(anchor)
    {
      forall id: nat
        ensures anchorOf(id) != Some(anchor)
      {
        if anchorOf(id) == Some(anchor) {
          var u := SomeTargetHits(id, anchor);
        }
      }
    }

    lemma SomeTargetHits(id: nat, anchor: Anchor) returns (t: nat)
      requires Valid() && anchorOf(id) == Some(anchor)
      ensures t < |targets| && Hits(t, anchor)
    {
      t :| t < |targets| && Suits(t, anchor) && Wanted(t, anchor) == Some(id);
    }
  }

  // ---- resolving a block -------------------------------------------------

  /** What a new version of the document says of a target: its digests and the headings it is under. */
  datatype Described = Described(content: nat, context: nat, path: seq<Source>)

  type Describe = nat -> Described

  datatype Tier = Contextual | UnderSameHeadings | SameContent

  predicate Qualifies(tier: Tier, target: Target, anchor: BlockAnchor, describe: Describe) {
    && target.kind == anchor.kind
    && match tier
       case Contextual => describe(target.id).context == anchor.context
       case UnderSameHeadings => describe(target.id).content == anchor.content
           && describe(target.id).path == anchor.path
       case SameContent => describe(target.id).content == anchor.content
  }

  function Candidates(tier: Tier, targets: seq<Target>, anchor: BlockAnchor, describe: Describe): seq<Target> {
    if targets == [] then []
    else
      var last := targets[|targets| - 1];
      Candidates(tier, targets[..|targets| - 1], anchor, describe) + if Qualifies(tier, last, anchor, describe)
          then [last] else []
  }

  /** The target closest to where the block was, of those that qualify: strictly closer than any other. */
  ghost predicate Resolves(tier: Tier, targets: seq<Target>, anchor: BlockAnchor, describe: Describe, target: Target) {
    && target in targets && Qualifies(tier, target, anchor, describe)
    && exists i: nat :: IsNearest(Candidates(tier, targets, anchor, describe), anchor.lines.start, i)
                        && Candidates(tier, targets, anchor, describe)[i] == target
  }

  ghost predicate NoneResolves(tier: Tier, targets: seq<Target>, anchor: BlockAnchor, describe: Describe) {
    forall i: nat :: !IsNearest(Candidates(tier, targets, anchor, describe), anchor.lines.start, i)
  }

  /** The tier that decides is the first with a nearest candidate, and what is found is that candidate. */
  ghost predicate FoundAt(tier: Option<Tier>, targets: seq<Target>, anchor: BlockAnchor, describe: Describe,
                          found: Option<nat>)
  {
    && (found.Some? <==> tier.Some?)
    && (tier.Some? ==>
          exists target :: Resolves(tier.value, targets, anchor, describe, target) && target.id == found.value)
    && (tier != Some(Contextual) ==> NoneResolves(Contextual, targets, anchor, describe))
    && (tier == Some(SameContent) || tier == None ==> NoneResolves(UnderSameHeadings, targets, anchor, describe))
    && (tier == None ==> NoneResolves(SameContent, targets, anchor, describe))
  }

  lemma {:induction false} CandidatesQualify(tier: Tier, targets: seq<Target>, anchor: BlockAnchor, describe: Describe,
                                             target: Target)
    ensures target in Candidates(tier, targets, anchor, describe) <==>
            target in targets && Qualifies(tier, target, anchor, describe)
  {
    if targets != [] {
      var init := targets[..|targets| - 1];
      assert targets == init + [targets[|targets| - 1]];
      CandidatesQualify(tier, init, anchor, describe, target);
    }
  }

  /** Tries the tiers in order: the same context, the same content under the same headings, the same
      content. A tier whose nearest candidates tie does not decide. */
  method ResolveBlock(targets: seq<Target>, anchor: BlockAnchor, describe: Describe)
    returns (found: Option<nat>, ghost tier: Option<Tier>)
    ensures FoundAt(tier, targets, anchor, describe, found)
  {
    hide Qualifies, IsNearest;
    tier := None;
    found := NearestTarget(Candidates(Contextual, targets, anchor, describe), anchor.lines.start);
    if found.Some? {
      tier := Some(Contextual);
      NearestResolves(Contextual, targets, anchor, describe, found.value);
      return;
    }
    found := NearestTarget(Candidates(UnderSameHeadings, targets, anchor, describe), anchor.lines.start);
    if found.Some? {
      tier := Some(UnderSameHeadings);
      NearestResolves(UnderSameHeadings, targets, anchor, describe, found.value);
      return;
    }
    found := NearestTarget(Candidates(SameContent, targets, anchor, describe), anchor.lines.start);
    if found.Some? {
      tier := Some(SameContent);
      NearestResolves(SameContent, targets, anchor, describe, found.value);
    }
  }

  lemma NearestResolves(tier: Tier, targets: seq<Target>, anchor: BlockAnchor, describe: Describe, id: nat)
    requires exists i: nat :: IsNearest(Candidates(tier, targets, anchor, describe), anchor.lines.start, i)
                              && Candidates(tier, targets, anchor, describe)[i].id == id
    ensures exists target :: Resolves(tier, targets, anchor, describe, target) && target.id == id
  {
    var candidates := Candidates(tier, targets, anchor, describe);
    var i: nat :| IsNearest(candidates, anchor.lines.start, i) && candidates[i].id == id;
    CandidatesQualify(tier, targets, anchor, describe, candidates[i]);
    assert Resolves(tier, targets, anchor, describe, candidates[i]);
  }

  /** A block still where it was, with its context unchanged, is found again by its context if and only if
      no other target of its kind starts on the same line with the same context. */
  lemma UnmovedBlockResolvesIff(targets: seq<Target>, anchor: BlockAnchor, describe: Describe, target: Target)
    requires forall i, j :: 0 <= i < j < |targets| ==> targets[i].id != targets[j].id
    requires target in targets && Qualifies(Contextual, target, anchor, describe)
             && target.source.lines.start == anchor.lines.start
    ensures Resolves(Contextual, targets, anchor, describe, target) <==>
            !HasTwin(Contextual, targets, anchor, describe, target)
    ensures HasTwin(Contextual, targets, anchor, describe, target) ==>
            NoneResolves(Contextual, targets, anchor, describe)
  {
    UnmovedResolvesIff(Contextual, targets, anchor, describe, target);
  }

  /** Another target that qualifies starts on the same line. */
  ghost predicate HasTwin(tier: Tier, targets: seq<Target>, anchor: BlockAnchor, describe: Describe, target: Target) {
    exists other :: other in targets && other != target && Qualifies(tier, other, anchor, describe)
                    && other.source.lines.start == target.source.lines.start
  }

  lemma UnmovedResolvesIff(tier: Tier, targets: seq<Target>, anchor: BlockAnchor, describe: Describe, target: Target)
    requires forall i, j :: 0 <= i < j < |targets| ==> targets[i].id != targets[j].id
    requires target in targets && Qualifies(tier, target, anchor, describe)
             && target.source.lines.start == anchor.lines.start
    ensures Resolves(tier, targets, anchor, describe, target) <==> !HasTwin(tier, targets, anchor, describe, target)
    ensures HasTwin(tier, targets, anchor, describe, target) ==> NoneResolves(tier, targets, anchor, describe)
  {
    hide Qualifies;
    var candidates := Candidates(tier, targets, anchor, describe);
    CandidatesQualify(tier, targets, anchor, describe, target);
    var i :| 0 <= i < |candidates| && candidates[i] == target;
    CandidatesDistinct(tier, targets, anchor, describe);
    if HasTwin(tier, targets, anchor, describe, target) {
      var other :| other in targets && other != target && Qualifies(tier, other, anchor, describe)
                   && other.source.lines.start == target.source.lines.start;
      CandidatesQualify(tier, targets, anchor, describe, other);
      var k :| 0 <= k < |candidates| && candidates[k] == other;
      forall n: nat
        ensures !IsNearest(candidates, anchor.lines.start, n)
      {
        assert n < |candidates| ==> Away(candidates[if n == i then k else i],
                                         anchor.lines.start) <= Away(candidates[n], anchor.lines.start);
      }
    } else {
      forall j | 0 <= j < |candidates| && j != i
        ensures Away(candidates[j], anchor.lines.start) > Away(candidates[i], anchor.lines.start)
      {
        CandidatesQualify(tier, targets, anchor, describe, candidates[j]);
      }
      assert IsNearest(candidates, anchor.lines.start, i);
    }
  }

  lemma {:induction false} CandidatesDistinct(tier: Tier, targets: seq<Target>, anchor: BlockAnchor, describe: Describe)
    requires forall i, j :: 0 <= i < j < |targets| ==> targets[i].id != targets[j].id
    ensures var c := Candidates(tier, targets, anchor, describe); forall i, j :: 0 <= i < j < |c| ==> c[i] != c[j]
  {
    if targets != [] {
      var init, last := targets[..|targets| - 1], targets[|targets| - 1];
      CandidatesDistinct(tier, init, anchor, describe);
      var c := Candidates(tier, init, anchor, describe);
      forall i | 0 <= i < |c|
        ensures c[i] != last
      {
        CandidatesQualify(tier, init, anchor, describe, c[i]);
        var k :| 0 <= k < |init| && init[k] == c[i];
        assert targets[k].id != targets[|targets| - 1].id;
      }
    }
  }

  lemma ResolvesOne(tier: Tier, targets: seq<Target>, anchor: BlockAnchor, describe: Describe, a: Target, b: Target)
    requires Resolves(tier, targets, anchor, describe, a) && Resolves(tier, targets, anchor, describe, b)
    ensures a == b && !NoneResolves(tier, targets, anchor, describe)
  {
    hide Qualifies;
    var candidates := Candidates(tier, targets, anchor, describe);
    var i: nat :| IsNearest(candidates, anchor.lines.start, i) && candidates[i] == a;
    var j: nat :| IsNearest(candidates, anchor.lines.start, j) && candidates[j] == b;
  }

  lemma TierNotNone(t: Option<Tier>, targets: seq<Target>, anchor: BlockAnchor, describe: Describe, found: Option<nat>)
    requires FoundAt(t, targets, anchor, describe, found) && t.Some?
    ensures !NoneResolves(t.value, targets, anchor, describe)
  {
    hide Resolves, NoneResolves;
    var x :| Resolves(t.value, targets, anchor, describe, x) && x.id == found.value;
    ResolvesOne(t.value, targets, anchor, describe, x, x);
  }

  /** A block is found in one way at most. */
  lemma FoundOnce(targets: seq<Target>, anchor: BlockAnchor, describe: Describe, t: Option<Tier>, a: Option<nat>,
                  u: Option<Tier>, b: Option<nat>)
    requires FoundAt(t, targets, anchor, describe, a) && FoundAt(u, targets, anchor, describe, b)
    ensures a == b && t == u
  {
    hide Resolves, NoneResolves;
    if t.Some? {
      TierNotNone(t, targets, anchor, describe, a);
    }
    if u.Some? {
      TierNotNone(u, targets, anchor, describe, b);
    }
    assert t.Some? ==> t.value.Contextual? || t.value.UnderSameHeadings? || t.value.SameContent?;
    assert u.Some? ==> u.value.Contextual? || u.value.UnderSameHeadings? || u.value.SameContent?;
    assert t == u;
    if t.Some? {
      var x :| Resolves(t.value, targets, anchor, describe, x) && x.id == a.value;
      var y :| Resolves(t.value, targets, anchor, describe, y) && y.id == b.value;
      ResolvesOne(t.value, targets, anchor, describe, x, y);
    }
  }
}
