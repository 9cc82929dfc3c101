/**
 Review comments and their reattachment to a new version of the document. Candidates are gathered into
 buckets by content; a search through one bucket does what a search through every line would.
 */
module Reviews {
  import opened Bytes
  import opened Hunks
  import opened Documents
  import opened LineAnchors

  const U64_MAX: nat := 0xFFFF_FFFF_FFFF_FFFF

  datatype ReviewTarget = WorkingTree(scope: nat) | Commit(id: string)
  {
    function CommitOf(): Option<string> {
      if Commit? then Some(id) else None
    }
  }

  datatype CommentContext = CommentContext(path: RepoPath, side: Side, number: Option<nat>, kind: LineKind,
                                           text: Source)

  datatype ReviewComment = ReviewComment(id: nat, anchor: LineAnchor, body: string, context: CommentContext,
                                         outdated: bool, target: ReviewTarget)

  // ---- every line of a document ------------------------------------------

  ghost function AsSeq(anchor: Option<LineAnchor>): seq<LineAnchor> {
    if anchor.Some? then [anchor.value] else []
  }

  /** The anchors of the first `n` sides of a line. */
  ghost function OfLine(digests: Digests, file: FileDiff, hunk: nat, line: nat, n: nat): seq<LineAnchor>
    requires hunk < |file.hunks| && line < |file.hunks[hunk].lines| && n <= |Sides(file.hunks[hunk].lines[line].kind)|
  {
    if n == 0 then []
    else OfLine(digests, file, hunk, line, n - 1)
         + AsSeq(ForLine(digests, file, Sides(file.hunks[hunk].lines[line].kind)[n - 1], hunk, line))
  }

  ghost function OfHunk(digests: Digests, file: FileDiff, hunk: nat, n: nat): seq<LineAnchor>
    requires hunk < |file.hunks| && n <= |file.hunks[hunk].lines|
  {
    if n == 0 then []
    else OfHunk(digests, file, hunk, n - 1)
         + OfLine(digests, file, hunk, n - 1, |Sides(file.hunks[hunk].lines[n - 1].kind)|)
  }

  ghost function OfFile(digests: Digests, file: FileDiff, n: nat): seq<LineAnchor>
    requires n <= |file.hunks|
  {
    if n == 0 then [] else OfFile(digests, file, n - 1) + OfHunk(digests, file, n - 1, |file.hunks[n - 1].lines|)
  }

  /** The anchors of every line of the document, on every side it stands on, in order. */
  ghost function AllAnchors(digests: Digests, files: seq<FileDiff>): seq<LineAnchor> {
    if files == [] then []
    else AllAnchors(digests, files[..|files| - 1]) + OfFile(digests, files[|files| - 1], |files[|files| - 1].hunks|)
  }

  ghost function WithContent(anchors: seq<LineAnchor>, content: Fingerprint): seq<LineAnchor> {
    if anchors == [] then []
    else
      var last := anchors[|anchors| - 1];
      WithContent(anchors[..|anchors| - 1], content) + if last.contentFingerprint == content then [last] else []
  }

  // ---- buckets -----------------------------------------------------------

  type Buckets = map<Fingerprint, seq<LineAnchor>>

  ghost function Bucket(candidates: Buckets, content: Fingerprint): seq<LineAnchor> {
    if content in candidates then candidates[content] else []
  }

  /** The buckets hold the wanted ones of these anchors, each bucket in order. */
  ghost predicate Gathers(candidates: Buckets, wanted: set<Fingerprint>, anchors: seq<LineAnchor>) {
    forall content :: content in wanted ==> Bucket(candidates, content) == WithContent(anchors, content)
  }

  function Push(candidates: Buckets, anchor: LineAnchor): Buckets {
    var content := anchor.contentFingerprint;
    candidates[content := (if content in candidates then candidates[content] else []) + [anchor]]
  }

  lemma GathersPush(candidates: Buckets, wanted: set<Fingerprint>, anchors: seq<LineAnchor>, anchor: LineAnchor)
    requires Gathers(candidates, wanted, anchors)
    ensures Gathers(Push(candidates, anchor), wanted, anchors + [anchor])
    ensures anchor.contentFingerprint !in wanted ==> Gathers(candidates, wanted, anchors + [anchor])
  {
    assert (anchors + [anchor])[..|anchors|] == anchors;
  }

  method GatherLine(digests: Digests, file: FileDiff, hunk: nat, line: nat, wanted: set<Fingerprint>,
                    candidates: Buckets, ghost anchors: seq<LineAnchor>)
    returns (after: Buckets)
    requires hunk < |file.hunks| && line < |file.hunks[hunk].lines| && Gathers(candidates, wanted, anchors)
    ensures Gathers(after, wanted,
                    anchors + OfLine(digests, file, hunk, line, |Sides(file.hunks[hunk].lines[line].kind)|))
  {
    hide Gathers, Push, ForLine, Sides;
    var sides := Sides(file.hunks[hunk].lines[line].kind);
    after := candidates;
    assert anchors + [] == anchors;
    for n := 0 to |sides|
      invariant Gathers(after, wanted, anchors + OfLine(digests, file, hunk, line, n))
    {
      var content := ContentFingerprint(digests, sides[n], file.hunks[hunk].lines[line]);
      var anchor := ForLine(digests, file, sides[n], hunk, line);
      ghost var before := anchors + OfLine(digests, file, hunk, line, n);
      if anchor.Some? {
        GathersPush(after, wanted, before, anchor.value);
        assert before + [anchor.value] == anchors + OfLine(digests, file, hunk, line, n + 1);
        if content in wanted {
          after := Push(after, anchor.value);
        }
      } else {
        assert before == anchors + OfLine(digests, file, hunk, line, n + 1);
      }
    }
  }

  method GatherFile(digests: Digests, file: FileDiff, wanted: set<Fingerprint>, candidates: Buckets,
                    ghost anchors: seq<LineAnchor>)
    returns (after: Buckets)
    requires Gathers(candidates, wanted, anchors)
    ensures Gathers(after, wanted, anchors + OfFile(digests, file, |file.hunks|))
  {
    hide Gathers, OfLine, Sides;
    after := candidates;
    assert anchors + [] == anchors;
    for hunk := 0 to |file.hunks|
      invariant Gathers(after, wanted, anchors + OfFile(digests, file, hunk))
    {
      ghost var before := anchors + OfFile(digests, file, hunk);
      assert before + [] == before;
      for line := 0 to |file.hunks[hunk].lines|
        invariant Gathers(after, wanted, before + OfHunk(digests, file, hunk, line))
      {
        after := GatherLine(digests, file, hunk, line, wanted, after, before + OfHunk(digests, file, hunk, line));
        assert before + OfHunk(digests, file, hunk, line)
               + OfLine(digests, file, hunk, line, |Sides(file.hunks[hunk].lines[line].kind)|)
            == before + OfHunk(digests, file, hunk, line + 1);
      }
      assert before + OfHunk(digests, file, hunk, |file.hunks[hunk].lines|) == anchors
             + OfFile(digests, file, hunk + 1);
    }
  }

  /** One pass over the document. */
  method Gather(digests: Digests, files: seq<FileDiff>, wanted: set<Fingerprint>) returns (candidates: Buckets)
    ensures Gathers(candidates, wanted, AllAnchors(digests, files))
  {
    candidates := map[];
    for f := 0 to |files|
      invariant Gathers(candidates, wanted, AllAnchors(digests, files[..f]))
    {
      candidates := GatherFile(digests, files[f], wanted, candidates, AllAnchors(digests, files[..f]));
      assert files[..f + 1][..f] == files[..f];
    }
    assert files[..|files|] == files;
  }

  // ---- searching ---------------------------------------------------------

  function NumberOf(anchor: LineAnchor): nat {
    if anchor.Number().Some? then anchor.Number().value else 0
  }

  function Distance(a: nat, b: nat): nat { if a < b then b - a else a - b }

  /** A line that could stand for another: it reads the same, in the same file, on the same side. */
  predicate Resembles(anchor: LineAnchor, previous: LineAnchor) {
    anchor.contentFingerprint == previous.contentFingerprint && anchor.SameSide(previous)
  }

  function Farness(anchor: LineAnchor, previous: LineAnchor): nat {
    Distance(NumberOf(anchor), NumberOf(previous))
  }

  /** The index of the first nearest line that resembles one: what a scan of all lines keeps. */
  ghost predicate IsFirstNearest(anchors: seq<LineAnchor>, previous: LineAnchor, i: nat) {
    && i < |anchors| && Resembles(anchors[i], previous)
    && (forall j :: 0 <= j < i && Resembles(anchors[j], previous) ==>
        Farness(anchors[j], previous) > Farness(anchors[i], previous))
    && (forall j :: i < j < |anchors| && Resembles(anchors[j], previous) ==>
        Farness(anchors[j], previous) >= Farness(anchors[i], previous))
  }

  /** The plain search: the anchor itself if it is there, else the first nearest that resembles it. */
  ghost predicate Finds(anchors: seq<LineAnchor>, previous: LineAnchor, found: Option<LineAnchor>) {
    match found
    case None => forall i :: 0 <= i < |anchors| ==> !Resembles(anchors[i], previous)
    case Some(anchor) =>
      if previous in anchors then anchor == previous
      else exists i: nat :: IsFirstNearest(anchors, previous, i) && anchors[i] == anchor
  }

  method Reattach(bucket: seq<LineAnchor>, previous: LineAnchor) returns (found: Option<LineAnchor>)
    requires forall i :: 0 <= i < |bucket| ==> bucket[i].contentFingerprint == previous.contentFingerprint
    ensures Finds(bucket, previous, found)
  {
    hide IsFirstNearest, Farness;
    for i := 0 to |bucket|
      invariant previous !in bucket[..i]
    {
      if bucket[i] == previous {
        return Some(bucket[i]);
      }
    }
    assert bucket[..|bucket|] == bucket;
    var best: Option<nat> := None;
    for i := 0 to |bucket|
      invariant best.None? ==> forall j :: 0 <= j < i ==> !Resembles(bucket[j], previous)
      invariant best.Some? ==> best.value < i && IsFirstNearest(bucket[..i], previous, best.value)
    {
      NearestStep(bucket, previous, best, i);
      if bucket[i].SameSide(previous) {
        if best.None? || Farness(bucket[i], previous) < Farness(bucket[best.value], previous) {
          best := Some(i);
        }
      }
    }
    return if best.None? then None else Some(bucket[best.value]);
  }

  lemma NearestStep(bucket: seq<LineAnchor>, previous: LineAnchor, best: Option<nat>, i: nat)
    requires i < |bucket| && bucket[i].contentFingerprint == previous.contentFingerprint
    requires best.None? ==> forall j :: 0 <= j < i ==> !Resembles(bucket[j], previous)
    requires best.Some? ==> best.value < i && IsFirstNearest(bucket[..i], previous, best.value)
    ensures bucket[i].SameSide(previous)
            && (best.None? || Farness(bucket[i], previous) < Farness(bucket[best.value], previous)) ==>
              IsFirstNearest(bucket[..i + 1], previous, i)
    ensures best.Some? && !(bucket[i].SameSide(previous)
                            && Farness(bucket[i], previous) < Farness(bucket[best.value], previous)) ==>
              IsFirstNearest(bucket[..i + 1], previous, best.value)
  {
    var fewer, more := bucket[..i], bucket[..i + 1];
    assert forall j :: 0 <= j < i ==> fewer[j] == bucket[j] == more[j];
    assert more[i] == bucket[i];
  }

  /** Searching the bucket of lines with the same content finds what searching every line would. */
  lemma {:induction false} BucketSearchIsFullSearch(anchors: seq<LineAnchor>, previous: LineAnchor,
                                                    found: Option<LineAnchor>)
    requires Finds(WithContent(anchors, previous.contentFingerprint), previous, found)
    ensures Finds(anchors, previous, found)
  {
    var bucket := WithContent(anchors, previous.contentFingerprint);
    SameMembers(anchors, previous.contentFingerprint, previous);
    match found
    case None =>
      forall i | 0 <= i < |anchors|
        ensures !Resembles(anchors[i], previous)
      {
        if Resembles(anchors[i], previous) {
          SameMembers(anchors, previous.contentFingerprint, anchors[i]);
        }
      }
    case Some(anchor) =>
      if previous !in anchors {
        var i: nat :| IsFirstNearest(bucket, previous, i) && bucket[i] == anchor;
        var k := PlaceInAll(anchors, previous, i);
      }
  }

  lemma {:induction false} SameMembers(anchors: seq<LineAnchor>, content: Fingerprint, anchor: LineAnchor)
    ensures anchor in WithContent(anchors, content) <==> anchor in anchors && anchor.contentFingerprint == content
  {
    if anchors != [] {
      var init := anchors[..|anchors| - 1];
      assert anchors == init + [anchors[|anchors| - 1]];
      SameMembers(init, content, anchor);
    }
  }

  /** The first nearest of a bucket, as an index into all the anchors. */
  lemma {:induction false} PlaceInAll(anchors: seq<LineAnchor>, previous: LineAnchor, i: nat) returns (k: nat)
    requires IsFirstNearest(WithContent(anchors, previous.contentFingerprint), previous, i)
    ensures IsFirstNearest(anchors, previous, k) && anchors[k] == WithContent(anchors, previous.contentFingerprint)[i]
  {
    var init, last := anchors[..|anchors| - 1], anchors[|anchors| - 1];
    var bucket, fewer := WithContent(anchors, previous.contentFingerprint),
        WithContent(init, previous.contentFingerprint);
    assert fewer == bucket[..|fewer|];
    assert forall j :: 0 <= j < |fewer| ==> fewer[j] == bucket[j];
    if i < |fewer| {
      k := PlaceInAll(init, previous, i);
      assert forall j :: 0 <= j < |init| ==> init[j] == anchors[j];
      if Resembles(last, previous) {
        assert bucket[|fewer|] == last;
      }
    } else {
      k := |anchors| - 1;
      forall j | 0 <= j < k && Resembles(anchors[j], previous)
        ensures Farness(anchors[j], previous) > Farness(last, previous)
      {
        assert init[j] == anchors[j];
        SameMembers(init, previous.contentFingerprint, anchors[j]);
        var m :| 0 <= m < |fewer| && fewer[m] == anchors[j];
        assert bucket[m] == anchors[j];
      }
    }
  }

  // ---- the review --------------------------------------------------------

  /** What reconciling makes of a comment: a comment on another commit is left alone; any other goes to
      the line the plain search finds, or stays where it is and is outdated. */
  ghost predicate Reattached(before: ReviewComment, after: ReviewComment, anchors: seq<LineAnchor>,
                             target: ReviewTarget)
  {
    if before.target.CommitOf() != target.CommitOf() then after == before
    else if exists i :: 0 <= i < |anchors| && Resembles(anchors[i], before.anchor) then
      Finds(anchors, before.anchor, Some(after.anchor)) && after == before.(anchor := after.anchor, outdated := false)
    else after == before.(outdated := true)
  }

  ghost predicate AllReattached(before: seq<ReviewComment>, after: seq<ReviewComment>, anchors: seq<LineAnchor>,
                                target: ReviewTarget)
  {
    |before| == |after| && forall i :: 0 <= i < |before| ==> Reattached(before[i], after[i], anchors, target)
  }

  lemma FoundSettlesComment(comment: ReviewComment, anchors: seq<LineAnchor>, target: ReviewTarget,
                            found: Option<LineAnchor>)
    requires comment.target.CommitOf() == target.CommitOf() && Finds(anchors, comment.anchor, found)
    ensures Reattached(comment,
                       comment.(anchor := if found.Some? then found.value
                                else comment.anchor, outdated := found.None?), anchors, target)
  {
    hide IsFirstNearest;
    FoundResembles(anchors, comment.anchor, found);
  }

  lemma FoundResembles(anchors: seq<LineAnchor>, previous: LineAnchor, found: Option<LineAnchor>)
    requires Finds(anchors, previous, found)
    ensures found.Some? <==> exists i :: 0 <= i < |anchors| && Resembles(anchors[i], previous)
    ensures found.Some? ==> found.value in anchors && Resembles(found.value, previous)
  {
  }

  /** The plain search has one answer. */
  lemma FindsOne(anchors: seq<LineAnchor>, previous: LineAnchor, a: Option<LineAnchor>, b: Option<LineAnchor>)
    requires Finds(anchors, previous, a) && Finds(anchors, previous, b)
    ensures a == b
  {
    FoundResembles(anchors, previous, a);
    FoundResembles(anchors, previous, b);
    if a.Some? && previous !in anchors {
      var i: nat :| IsFirstNearest(anchors, previous, i) && anchors[i] == a.value;
      var j: nat :| IsFirstNearest(anchors, previous, j) && anchors[j] == b.value;
      assert i == j;
    }
  }

  /** Reconciling twice is reconciling once. */
  lemma SecondReconcileChangesNothing(before: seq<ReviewComment>, once: seq<ReviewComment>, twice: seq<ReviewComment>,
                                      anchors: seq<LineAnchor>, target: ReviewTarget)
    requires AllReattached(before, once, anchors, target) && AllReattached(once, twice, anchors, target)
    ensures twice == once
  {
    hide Finds;
    forall i | 0 <= i < |once|
      ensures twice[i] == once[i]
    {
      assert Reattached(before[i], once[i], anchors, target);
      SettledStays(before[i], once[i], twice[i], anchors, target);
    }
  }

  lemma SettledStays(before: ReviewComment, once: ReviewComment, twice: ReviewComment, anchors: seq<LineAnchor>,
                     target: ReviewTarget)
    requires Reattached(before, once, anchors, target) && Reattached(once, twice, anchors, target)
    ensures twice == once
  {
    hide IsFirstNearest;
    if before.target.CommitOf() == target.CommitOf() && !once.outdated {
      FoundResembles(anchors, before.anchor, Some(once.anchor));
      var i :| 0 <= i < |anchors| && anchors[i] == once.anchor;
      assert Resembles(anchors[i], once.anchor);
      FindsOne(anchors, once.anchor, Some(once.anchor), Some(twice.anchor));
    }
  }

  class Review {
    const digests: Digests
    var comments: seq<ReviewComment>
    var nextId: nat
    var target: ReviewTarget

    /** Ids are given out in turn; until they run out no two comments share one. */
    ghost predicate Valid()
      reads this
    {
      && nextId <= U64_MAX
      && (forall i :: 0 <= i < |comments| ==> comments[i].id <= nextId)
      && (nextId < U64_MAX ==>
            && (forall i :: 0 <= i < |comments| ==> comments[i].id < nextId)
            && forall i, j :: 0 <= i < j < |comments| ==> comments[i].id != comments[j].id)
    }

    constructor (digests: Digests, target: ReviewTarget)
      ensures Valid() && comments == [] && nextId == 0 && this.target == target
    {
      this.digests, this.target := digests, target;
      comments, nextId := [], 0;
    }

    method AddComment(anchor: LineAnchor, text: Source, body: string) returns (id: nat)
      requires Valid()
      modifies this`comments, this`nextId
      ensures Valid() && id == old(nextId) && nextId == Min(old(nextId) + 1, U64_MAX)
      ensures old(nextId) < U64_MAX ==> forall i :: 0 <= i < |old(comments)| ==> old(comments)[i].id != id
      ensures comments == old(comments)
              + [ReviewComment(id, anchor, body,
                                                         CommentContext(anchor.path, anchor.side, anchor.Number(),
                                                                 anchor.kind, text), false, target)]
    {
      id := nextId;
      nextId := Min(nextId + 1, U64_MAX);
      var context := CommentContext(anchor.path, anchor.side, anchor.Number(), anchor.kind, text);
      comments := comments + [ReviewComment(id, anchor, body, context, false, target)];
    }

    /** The first comment with an id. */
    function Position(id: nat): (r: Option<nat>)
      reads this
      ensures r.Some? ==> r.value < |comments| && comments[r.value].id == id && forall i :: 0 <= i < r.value ==>
              comments[i].id != id
      ensures r.None? ==> forall i :: 0 <= i < |comments| ==> comments[i].id != id
    {
      PositionIn(comments, id)
    }

    method EditComment(id: nat, body: string) returns (found: bool)
      requires Valid()
      modifies this`comments
      ensures Valid() && found == old(Position(id)).Some?
      ensures comments == match old(Position(id))
                          case None => old(comments)
                          case Some(i) => old(comments)[i := old(comments)[i].(body := body)]
    {
      var at := Position(id);
      found := at.Some?;
      if found {
        comments := comments[at.value := comments[at.value].(body := body)];
      }
    }

    method RemoveComment(id: nat) returns (removed: Option<ReviewComment>)
      requires Valid()
      modifies this`comments
      ensures Valid()
      ensures match old(Position(id))
              case None => removed == None && comments == old(comments)
              case Some(i) =>
                  removed == Some(old(comments)[i])
                  && comments == old(comments)[..i] + old(comments)[i + 1..]
    {
      var at := Position(id);
      if at.None? {
        return None;
      }
      removed := Some(comments[at.value]);
      comments := comments[..at.value] + comments[at.value + 1..];
    }

    /** Takes over a new version of the document: every comment of its commit is reattached as the plain
        search over all its lines would, the rest are untouched, and the answer says whether anything in
        the review is different. */
    method Reconcile(files: seq<FileDiff>, documentTarget: ReviewTarget) returns (changed: bool)
      requires Valid()
      modifies this`comments, this`target
      ensures Valid() && target == documentTarget
      ensures AllReattached(old(comments), comments, AllAnchors(digests, files), documentTarget)
      ensures changed <==> target != old(target) || comments != old(comments)
    {
      hide Gathers, Finds, Resembles, AllAnchors, Reattached, Wanted, AllReattached, SameIds;
      changed := target != documentTarget;
      target := documentTarget;
      ghost var anchors := AllAnchors(digests, files);
      var wanted := Wanted(comments, target);
      if wanted == {} {
        NothingWanted(comments, target);
        OtherCommits(comments, anchors, target);
        return;
      }
      var candidates := Gather(digests, files, wanted);
      WantedHolds(comments, target);
      ghost var before := comments;
      var i := 0;
      NothingReattached(before, anchors, target);
      assert comments[..0] == before[..0] == [];
      while i < |comments|
        invariant i <= |comments| == |before|
        invariant AllReattached(before[..i], comments[..i], anchors, target) && comments[i..] == before[i..]
        invariant SameIds(before, comments)
        invariant changed <==> target != old(target) || comments[..i] != before[..i]
        modifies this`comments
      {
        assert comments[i] == comments[i..][0] == before[i];
        var after := ReconcileComment(comments[i], target, candidates, wanted, anchors);
        NextReattached(before, comments, after, anchors, target, i);
        changed := changed || after != comments[i];
        comments := comments[i := after];
        i := i + 1;
      }
      assert comments[..i] == comments && before[..i] == before;
      SameIdsAt(before, comments);
    }
  }

  lemma NothingReattached(comments: seq<ReviewComment>, anchors: seq<LineAnchor>, target: ReviewTarget)
    ensures AllReattached([], [], anchors, target) && SameIds(comments, comments)
  {
  }

  ghost predicate SameIds(a: seq<ReviewComment>, b: seq<ReviewComment>) {
    |a| == |b| && forall i :: 0 <= i < |a| ==> a[i].id == b[i].id
  }

  lemma SameIdsAt(a: seq<ReviewComment>, b: seq<ReviewComment>)
    requires SameIds(a, b)
    ensures |a| == |b| && forall i :: 0 <= i < |b| ==> b[i].id == a[i].id
  {
  }

  /** The contents that comments of a commit are looking for. */
  function Wanted(comments: seq<ReviewComment>, target: ReviewTarget): set<Fingerprint> {
    set i | 0 <= i < |comments|
        && comments[i].target.CommitOf() == target.CommitOf() :: comments[i].anchor.contentFingerprint
  }

  lemma WantedHolds(comments: seq<ReviewComment>, target: ReviewTarget)
    ensures forall i :: 0 <= i < |comments| && comments[i].target.CommitOf() == target.CommitOf() ==>
                          comments[i].anchor.contentFingerprint in Wanted(comments, target)
  {
  }

  lemma NothingWanted(comments: seq<ReviewComment>, target: ReviewTarget)
    requires Wanted(comments, target) == {}
    ensures forall i :: 0 <= i < |comments| ==> comments[i].target.CommitOf() != target.CommitOf()
  {
    WantedHolds(comments, target);
  }

  /** Reattaches one comment from its bucket, unless it is on another commit. */
  method ReconcileComment(comment: ReviewComment, target: ReviewTarget, candidates: Buckets,
                          ghost wanted: set<Fingerprint>, ghost anchors: seq<LineAnchor>)
    returns (after: ReviewComment)
    requires Gathers(candidates, wanted, anchors)
    requires comment.target.CommitOf() == target.CommitOf() ==> comment.anchor.contentFingerprint in wanted
    ensures Reattached(comment, after, anchors, target) && after.id == comment.id
  {
    hide Gathers, Finds, Resembles, Reattached;
    if comment.target.CommitOf() != target.CommitOf() {
      OtherCommit(comment, anchors, target);
      return comment;
    }
    var content := comment.anchor.contentFingerprint;
    var bucket := if content in candidates then candidates[content] else [];
    BucketReadsSame(candidates, wanted, anchors, content);
    var found := Reattach(bucket, comment.anchor);
    BucketSearchIsFullSearch(anchors, comment.anchor, found);
    FoundSettlesComment(comment, anchors, target, found);
    return comment.(anchor := if found.Some? then found.value else comment.anchor, outdated := found.None?);
  }

  lemma NextReattached(before: seq<ReviewComment>, comments: seq<ReviewComment>, after: ReviewComment,
                       anchors: seq<LineAnchor>, target: ReviewTarget, i: nat)
    requires |before| == |comments| && i < |before| && comments[i..] == before[i..]
    requires Reattached(before[i], after, anchors, target) && after.id == before[i].id && SameIds(before, comments)
    requires AllReattached(before[..i], comments[..i], anchors, target)
    ensures var next := comments[i := after];
            && AllReattached(before[..i + 1], next[..i + 1], anchors, target) && next[i + 1..] == before[i + 1..]
            && SameIds(before, next) && next[..i + 1] == comments[..i] + [after]
            && before[..i + 1] == before[..i] + [before[i]]
  {
    hide Reattached;
    var next := comments[i := after];
    assert next[..i] == comments[..i];
    ReattachedNext(before, next, anchors, target, i);
    assert comments[i + 1..] == comments[i..][1..] && before[i + 1..] == before[i..][1..];
  }

  function PositionIn(comments: seq<ReviewComment>, id: nat): (r: Option<nat>)
    ensures r.Some? ==> r.value < |comments| && comments[r.value].id == id && forall i :: 0 <= i < r.value ==>
            comments[i].id != id
    ensures r.None? ==> forall i :: 0 <= i < |comments| ==> comments[i].id != id
  {
    if comments == [] then None
    else
      var before := PositionIn(comments[..|comments| - 1], id);
      if before.Some? then before
      else if comments[|comments| - 1].id == id then Some(|comments| - 1)
      else None
  }

  lemma OtherCommit(comment: ReviewComment, anchors: seq<LineAnchor>, target: ReviewTarget)
    requires comment.target.CommitOf() != target.CommitOf()
    ensures Reattached(comment, comment, anchors, target)
  {
  }

  lemma OtherCommits(comments: seq<ReviewComment>, anchors: seq<LineAnchor>, target: ReviewTarget)
    requires forall i :: 0 <= i < |comments| ==> comments[i].target.CommitOf() != target.CommitOf()
    ensures AllReattached(comments, comments, anchors, target)
  {
  }

  lemma BucketReadsSame(candidates: Buckets, wanted: set<Fingerprint>, anchors: seq<LineAnchor>, content: Fingerprint)
    requires Gathers(candidates, wanted, anchors) && content in wanted
    ensures Bucket(candidates, content) == WithContent(anchors, content)
    ensures forall i :: 0 <= i < |Bucket(candidates, content)| ==>
            Bucket(candidates, content)[i].contentFingerprint == content
  {
    forall i | 0 <= i < |WithContent(anchors, content)|
      ensures WithContent(anchors, content)[i].contentFingerprint == content
    {
      SameMembers(anchors, content, WithContent(anchors, content)[i]);
    }
  }

  lemma ReattachedNext(before: seq<ReviewComment>, after: seq<ReviewComment>, anchors: seq<LineAnchor>,
                       target: ReviewTarget, i: nat)
    requires |before| == |after| && i < |before| && Reattached(before[i], after[i], anchors, target)
    requires AllReattached(before[..i], after[..i], anchors, target)
    ensures AllReattached(before[..i + 1], after[..i + 1], anchors, target)
  {
    hide Reattached;
    var was, now := before[..i + 1], after[..i + 1];
    forall j | 0 <= j < |was|
      ensures Reattached(was[j], now[j], anchors, target)
    {
      if j < i {
        assert Reattached(before[..i][j], after[..i][j], anchors, target);
      }
    }
  }
}
