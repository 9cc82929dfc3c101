/**
 Identities for patch lines: where a line is, a digest of it with its neighbours, and a digest of it
 alone.
 */
module LineAnchors {
  import opened Bytes
  import opened Hunks
  import opened Documents

  const CONTEXT_RADIUS: nat := 2

  type Fingerprint = nat

  /** The digests an anchor carries, as any two functions of what they are taken over. */
  datatype Digests = Digests(content: (Side, LineKind, Source) -> Fingerprint,
                             context: (RepoPath, Side, PatchLine, seq<Source>) -> Fingerprint)

  datatype LineAnchor = LineAnchor(path: RepoPath, side: Side, oldNo: Option<nat>, newNo: Option<nat>, kind: LineKind,
                                   fingerprint: Fingerprint, contentFingerprint: Fingerprint)
  {
    function Number(): Option<nat> {
      if side == Old then oldNo else newNo
    }

    predicate SameSide(other: LineAnchor) {
      path == other.path && side == other.side
    }
  }

  function Texts(lines: seq<PatchLine>): seq<Source> {
    seq(|lines|, i requires 0 <= i < |lines| => lines[i].text)
  }

  /** The anchor of a hunk's line on a side, if it has a number there. */
  function ForLine(digests: Digests, file: FileDiff, side: Side, hunk: nat, line: nat): (r: Option<LineAnchor>)
    ensures r.Some? ==>
              && hunk < |file.hunks| && line < |file.hunks[hunk].lines|
              && r.value.path == file.path && r.value.side == side
              && r.value.Number() == file.hunks[hunk].lines[line].Number(side)
              && r.value.Number().Some?
              && r.value.contentFingerprint == ContentFingerprint(digests, side, file.hunks[hunk].lines[line])
  {
    if hunk >= |file.hunks| || line >= |file.hunks[hunk].lines| then None
    else
      var lines := file.hunks[hunk].lines;
      var anchored := lines[line];
      if anchored.Number(side).None? then None
      else
        var nearby := lines[Monus(line, CONTEXT_RADIUS)..Min(line + CONTEXT_RADIUS + 1, |lines|)];
        Some(LineAnchor(file.path, side, anchored.oldNo, anchored.newNo, anchored.kind,
                        digests.context(file.path, side, anchored, Texts(nearby)),
                        ContentFingerprint(digests, side, anchored)))
  }

  function ContentFingerprint(digests: Digests, side: Side, line: PatchLine): Fingerprint {
    digests.content(side, line.kind, line.text)
  }

  /** The sides a line of a kind may be commented on. */
  function Sides(kind: LineKind): seq<Side> {
    match kind
    case Removed => [Old]
    case Added => [New]
    case _ => [Old, New]
  }
}
