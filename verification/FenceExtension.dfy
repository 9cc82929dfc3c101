/**
 One chunk of an open fence: the byte loop that moves the scanner and stores complete lines, and
 what is left to do once the chunk is used up.
 */
module FenceExtension {
  import opened Bytes
  import opened LineIndexing
  import opened FenceLines
  import opened CodeBlocks
  import opened OpenFences

  function AimPiece(p: Piece, i: nat, base: nat): Piece {
    p.(line := Aim(p.line, i, base, 0))
  }

  /** Complete lines in the middle of a chunk: those from before it keep their clips and targets, the
      ones it completed have neither. */
  ghost function MidPieces(split: seq<Source>, clips: seq<Clip>, base: nat, cs: nat, source: Source): seq<Piece>
    requires |clips| < |split|
  {
    seq(|split| - 1, i requires 0 <= i < |split| - 1 =>
      if i < |clips| then AimPiece(ClippedAt(split, i, cs, source, clips[i]), i, base)
          else PieceAt(split, i, cs, source))
  }

  /** `position` ends a line of the content that closes the fence. */
  ghost predicate IsClosingEnd(fence: OpenFence, source: Source, position: nat)
    requires fence.contentStart <= position < |source|
  {
    && (source[position] == LF || source[position] == CR)
    && ScanLine(LastPiece(source[fence.contentStart..position]), fence.marker, fence.count).Closes(fence.count)
  }

  /** The first place from `from` on where a line end closes the fence. */
  ghost function FirstClosingEnd(fence: OpenFence, source: Source, from: nat): (r: Option<nat>)
    requires fence.contentStart <= from
    ensures r.Some? ==> from <= r.value < |source|
    decreases Monus(|source|, from)
  {
    if from >= |source| then None
    else if IsClosingEnd(fence, source, from) then Some(from)
    else FirstClosingEnd(fence, source, from + 1)
  }

  lemma {:induction false} FirstClosingIs(fence: OpenFence, source: Source, from: nat, end: nat)
    requires fence.contentStart <= from <= end <= |source|
    requires forall p :: from <= p < end ==> !IsClosingEnd(fence, source, p)
    requires end < |source| ==> IsClosingEnd(fence, source, end)
    ensures FirstClosingEnd(fence, source, from) == if end < |source| then Some(end) else None
    decreases end - from
  {
    hide IsClosingEnd;
    if from < end {
      FirstClosingIs(fence, source, from + 1, end);
    }
  }

  /** Behind the line ending at `position`, if there is one. */
  function AfterEol(source: Source, position: nat): nat {
    if position < |source| then
      if source[position] == CR && position + 1 < |source| && source[position + 1] == LF then position + 2
      else if source[position] == LF || source[position] == CR then position + 1
      else position
    else position
  }

  lemma ScannedCloses(fence: OpenFence, source: Source, position: nat)
    requires position < |source| && Scanned(fence, source[..position])
    ensures IsClosingEnd(fence, source, position) <==> ClosesAt(fence, source[position])
  {
    assert source[..position][fence.contentStart..] == source[fence.contentStart..position];
  }

  lemma MidGrows(split: seq<Source>, clips: seq<Clip>, base: nat, cs: nat, source: Source)
    requires |clips| < |split|
    ensures MidPieces(split + [[]], clips, base, cs, source)
         == MidPieces(split, clips, base, cs, source) + [PieceAt(split, |split| - 1, cs, source)]
  {
    hide SourceRangeOf, LineOf, Extent;
    var longer := split + [[]];
    forall i | 0 <= i < |split|
      ensures MidPieces(longer, clips, base, cs, source)[i]
           == (MidPieces(split, clips, base, cs, source) + [PieceAt(split, |split| - 1, cs, source)])[i]
    {
      assert longer[..i] == split[..i];
    }
  }

  lemma MidUnchanged(split: seq<Source>, other: seq<Source>, clips: seq<Clip>, base: nat, cs: nat, source: Source)
    requires |clips| < |split| == |other| && split[..|split| - 1] == other[..|split| - 1]
    ensures MidPieces(split, clips, base, cs, source) == MidPieces(other, clips, base, cs, source)
  {
    hide SourceRangeOf, LineOf, Extent;
    forall i | 0 <= i < |split| - 1
      ensures MidPieces(split, clips, base, cs, source)[i] == MidPieces(other, clips, base, cs, source)[i]
    {
      assert split[i] == split[..|split| - 1][i] == other[i];
      assert split[..i] == split[..|split| - 1][..i] == other[..i];
    }
  }

  /** One byte that does not end the line changes no complete line. */
  lemma MidByte(cs: nat, position: nat, source: Source, clips: seq<Clip>, base: nat)
    requires cs <= position < |source|
    requires |clips| < |SplitLF(source[cs..position])|
    ensures var split, next := SplitLF(source[cs..position]), SplitLF(source[cs..position + 1]);
            if source[position] == LF then
              && |next| == |split| + 1
              && MidPieces(next, clips, base, cs, source)
                 == MidPieces(split, clips, base, cs, source) + [PieceAt(split, |split| - 1, cs, source)]
            else
              && |next| == |split|
              && MidPieces(next, clips, base, cs, source) == MidPieces(split, clips, base, cs, source)
  {
    hide PieceAt, ClippedAt;
    SlicePush(source, cs, position);
    SplitPush(source[cs..position], source[position]);
    var split := SplitLF(source[cs..position]);
    if source[position] == LF {
      MidGrows(split, clips, base, cs, source);
    } else {
      MidUnchanged(split, SplitLF(source[cs..position + 1]), clips, base, cs, source);
    }
  }

  /** The piece for the line that ends at `position`, in the registers' terms. */
  lemma CompletedPiece(fence: OpenFence, source: Source, position: nat)
    requires position <= |source| && Scanned(fence, source[..position])
    ensures fence.lineStart <= position
    ensures var split := SplitLF(source[fence.contentStart..position]);
            PieceAt(split, |split| - 1, fence.contentStart, source)
            == Piece(LineAt(fence.complete, fence.lineStart, position - fence.lineStart, source),
                     source[fence.lineStart..position])
  {
    hide SplitLF, Opened, ClosedByCR, LineAt;
    assert source[..position][fence.contentStart..] == source[fence.contentStart..position];
    ContentExtent(fence.contentStart, position, source);
    CurrentLineAtEnd(fence.contentStart, position, source);
  }

  lemma ScannedRegisters(fence: OpenFence, source: Source, position: nat)
    requires position <= |source| && Scanned(fence, source[..position])
    ensures fence.contentStart <= fence.lineStart <= position
    ensures fence.complete + 1 == |SplitLF(source[fence.contentStart..position])|
  {
    hide SplitLF, Opened, ClosedByCR;
    assert source[..position][fence.contentStart..] == source[fence.contentStart..position];
    ContentExtent(fence.contentStart, position, source);
  }

  lemma ScanByte(fence: OpenFence, source: Source, position: nat)
    requires position < |source| && Scanned(fence, source[..position]) && !ClosesAt(fence, source[position])
    ensures Scanned(Advance(fence, position, source[position]), source[..position + 1])
  {
    hide Scanned;
    ScanStep(fence, source[..position], source[position]);
    assert source[..position + 1] == source[..position] + [source[position]];
  }

  method StoreLine(fence: OpenFence, source: Source, position: nat, kept: Body, lineIndex: LineIndex,
                   ghost clips: seq<Clip>, ghost base: nat, ghost missing: bool)
    returns (body: Body)
    requires position < |source| && Scanned(fence, source[..position]) && |clips| <= fence.complete
    requires source[position] == LF && lineIndex.Indexes(source)
    requires MidBody(kept, fence, source, position, clips, base, missing)
    ensures MidBody(body, Advance(fence, position, LF), source, position + 1, clips, base, missing)
  {
    hide SplitLF, Scanned, PieceAt, LineAt, MidPieces, Lay;
    ghost var cs := fence.contentStart;
    ScannedRegisters(fence, source, position);
    MidByte(cs, position, source, clips, base);
    CompletedPiece(fence, source, position);
    var line, text := FencedCodeLine(fence.complete, fence.lineStart, source[fence.lineStart..position], source,
                                     lineIndex);
    LaySnoc(MidPieces(SplitLF(source[cs..position]), clips, base, cs, source),
            PieceAt(SplitLF(source[cs..position]), fence.complete, cs, source));
    body := kept.PushLine(line, text);
  }

  /** The body while a chunk is being scanned. It is one line short when the lines the block had
      before the chunk did not cover its complete lines. */
  ghost predicate MidBody(body: Body, fence: OpenFence, source: Source, position: nat, clips: seq<Clip>, base: nat,
                          missing: bool)
  {
    && fence.contentStart <= position <= |source|
    && |clips| <= fence.complete == |SplitLF(source[fence.contentStart..position])| - 1
    && if missing then |body.lines| < fence.complete
       else body == Lay(MidPieces(SplitLF(source[fence.contentStart..position]), clips, base, fence.contentStart,
                                  source))
  }

  lemma SkipByte(fence: OpenFence, source: Source, position: nat, body: Body, clips: seq<Clip>, base: nat,
                 missing: bool)
    requires position < |source| && source[position] != LF
    requires MidBody(body, fence, source, position, clips, base, missing)
    ensures MidBody(body, Advance(fence, position, source[position]), source, position + 1, clips, base, missing)
  {
    hide SplitLF, PieceAt, MidPieces, Lay;
    MidByte(fence.contentStart, position, source, clips, base);
  }

  method ScanChunk(opening: OpenFence, source: Source, start: nat, kept: Body, lineIndex: LineIndex,
                   ghost clips: seq<Clip>, ghost base: nat, ghost missing: bool)
    returns (fence: OpenFence, close: Option<nat>, body: Body)
    requires start <= |source| && Scanned(opening, source[..start]) && |clips| == opening.complete
    requires lineIndex.Indexes(source)
    requires MidBody(kept, opening, source, start, clips, base, missing)
    ensures fence == opening.(lineStart := fence.lineStart, complete := fence.complete, state := fence.state)
    ensures var end := if close.Some? then close.value else |source|;
            && start <= end <= |source| && Scanned(fence, source[..end])
            && MidBody(body, fence, source, end, clips, base, missing)
            && (close.Some? ==> end < |source| && ClosesAt(fence, source[end]) && IsClosingEnd(opening, source, end))
            && forall p :: start <= p < end ==> !IsClosingEnd(opening, source, p)
  {
    hide Scanned, MidBody;
    fence, body, close := opening, kept, None;
    var position := start;
    ScannedRegisters(fence, source, start);
    while position < |source|
      invariant start <= position <= |source| && Scanned(fence, source[..position])
      invariant fence == opening.(lineStart := fence.lineStart, complete := fence.complete, state := fence.state)
      invariant opening.complete <= fence.complete
      invariant MidBody(body, fence, source, position, clips, base, missing)
      invariant forall p :: start <= p < position ==> !IsClosingEnd(opening, source, p)
    {
      var b := source[position];
      ScannedCloses(fence, source, position);
      if (b == LF || b == CR) && fence.state.Closes(fence.count) {
        close := Some(position);
        return;
      }
      ScanByte(fence, source, position);
      if b == LF {
        body := StoreLine(fence, source, position, body, lineIndex, clips, base, missing);
        fence := fence.(complete := fence.complete + 1, lineStart := position + 1, state := Indent(0));
      } else {
        SkipByte(fence, source, position, body, clips, base, missing);
        fence := fence.(state := fence.state.Feed(b, fence.marker, fence.count));
      }
      position := position + 1;
    }
  }

  // ---- finishing a chunk that leaves the fence open ------------------------

  /** The line before the one being scanned gets its full range back. */
  function Respanned(clips: seq<Clip>, complete: nat): (r: seq<Clip>)
    ensures |r| == |clips|
  {
    if clips != [] && |clips| == complete && clips[|clips| - 1] == TextAndRange then clips[|clips| - 1 := TextOnly]
    else clips
  }

  /** The clips after a chunk that was not followed by a rebuild. */
  ghost function NextOpenClips(clips: seq<Clip>, complete: nat): (r: seq<Clip>)
    requires |clips| <= complete
    ensures |r| == complete
  {
    Respanned(clips, complete) + seq(complete - |clips|, _ => Exact)
  }

  lemma RespanMid(split: seq<Source>, clips: seq<Clip>, base: nat, cs: nat, source: Source)
    requires |clips| < |split| && |split| > 1
    ensures var mid, n := MidPieces(split, clips, base, cs, source), |split| - 2;
            var start := mid[n].line.source.bytes.start;
            && start == cs + Extent(split[..n])
            && mid[..n] + [mid[n].(line :=
                                   mid[n].line.(source := SourceRangeOf(Range(start, start + |split[n]|), source)))]
               == MidPieces(split, Respanned(clips, |split| - 1), base, cs, source)
  {
    hide LineOf, Extent, SplitLF;
  }

  lemma LineStartAfterLast(cs: nat, end: nat, source: Source)
    requires cs <= end <= |source|
    ensures var split := SplitLF(source[cs..end]);
            var k := |split| - 1;
            k > 0 ==> cs + Extent(split[..k - 1]) + |split[k - 1]| + 1 == end - |split[k]|
  {
    ContentExtent(cs, end, source);
    var split := SplitLF(source[cs..end]);
    if |split| > 1 {
      ExtentNext(split, |split| - 2);
    }
  }

  lemma AimedMid(split: seq<Source>, clips: seq<Clip>, base: nat, from: nat, cs: nat, source: Source)
    requires |clips| < |split| && from <= |clips|
    ensures var open := [PieceAt(split, |split| - 1, cs, source)];
            AimPieces(MidPieces(split, Respanned(clips, |split| - 1), base, cs, source) + open, base, from)
            == AimPieces(Kept(split, NextOpenClips(clips, |split| - 1), cs, source) + open, base, 0)
  {
    hide PieceAt, ShortRange;
  }

  method RespanLast(fence: OpenFence, source: Source, body: Body, lineIndex: LineIndex, ghost clips: seq<Clip>,
                    ghost base: nat)
    returns (done: Body)
    requires Scanned(fence, source) && |clips| <= fence.complete && lineIndex.Indexes(source)
    requires body == Lay(MidPieces(Split(fence, source), clips, base, fence.contentStart, source))
    ensures done == Lay(MidPieces(Split(fence, source), Respanned(clips, fence.complete), base, fence.contentStart,
                                  source))
  {
    hide SplitLF, Opened, ClosedByCR, MidPieces, PieceAt, LineAt, Lay;
    ghost var cs, split := fence.contentStart, Split(fence, source);
    ghost var mid := MidPieces(split, clips, base, cs, source);
    assert source[..|source|] == source && source[cs..|source|] == source[cs..];
    done := body;
    LaySize(mid);
    MidSize(split, clips, base, cs, source);
    if done.lines != [] {
      var n := |done.lines| - 1;
      LayAt(mid, n);
      RespanMid(split, clips, base, cs, source);
      ContentExtent(cs, |source|, source);
      LineStartAfterLast(cs, |source|, source);
      var range := Range(done.lines[n].source.bytes.start, Monus(fence.lineStart, 1));
      lineIndex.RangeOfIsSourceRange(source, range);
      LayRespan(mid, SourceRangeOf(range, source));
      done := done.(lines := done.lines[n := done.lines[n].(source := lineIndex.RangeOf(range))]);
    }
  }

  method FinishOpenLines(fence: OpenFence, source: Source, body: Body, lineIndex: LineIndex,
                         ghost clips: seq<Clip>, ghost base: nat, ghost from: nat)
    returns (done: Body)
    requires Scanned(fence, source) && !Provisional(fence) && from <= |clips| <= fence.complete
    requires lineIndex.Indexes(source)
    requires body == Lay(MidPieces(Split(fence, source), clips, base, fence.contentStart, source))
    ensures |done.lines| == if |source| == fence.contentStart then 0 else fence.complete + 1
    ensures AimLines(done, base, from) == TrackedBody(fence, source, NextOpenClips(clips, fence.complete), base)
  {
    hide SplitLF, Opened, ClosedByCR, MidPieces, PieceAt, LineAt, Lay, AimPieces, Kept, AimLines, LineIndex.Indexes,
         LineOf, Respanned, NextOpenClips, Extent, SourceRangeOf;
    ghost var cs, split := fence.contentStart, Split(fence, source);
    assert source[..|source|] == source && source[cs..|source|] == source[cs..];
    done := RespanLast(fence, source, body, lineIndex, clips, base);
    ghost var respanned := MidPieces(split, Respanned(clips, fence.complete), base, cs, source);
    MidSize(split, Respanned(clips, fence.complete), base, cs, source);
    LaySize(respanned);
    ContentExtent(cs, |source|, source);
    if |source| > fence.contentStart {
      var line, text := FencedCodeLine(fence.complete, fence.lineStart, source[fence.lineStart..], source, lineIndex);
      CompletedPiece(fence, source, |source|);
      LaySnoc(respanned, PieceAt(split, fence.complete, cs, source));
      done := done.PushLine(line, text);
      AimedMid(split, clips, base, from, cs, source);
      LayAimed(respanned + [PieceAt(split, fence.complete, cs, source)], base, from);
    } else {
      EmptyLay(respanned);
      AimedNothing(base, from);
    }
  }

  lemma MidSize(split: seq<Source>, clips: seq<Clip>, base: nat, cs: nat, source: Source)
    requires |clips| < |split|
    ensures |MidPieces(split, clips, base, cs, source)| == |split| - 1
  {
  }

  lemma EmptyLay(ps: seq<Piece>)
    requires ps == []
    ensures Lay(ps) == NOTHING
  {
  }

  // ---- starting a chunk ----------------------------------------------------

  lemma {:induction false} SplitPrefixStable(a: Source, b: Source)
    ensures var k := |SplitLF(a)| - 1;
            k < |SplitLF(a + b)| && SplitLF(a + b)[..k] == SplitLF(a)[..k]
    decreases |b|
  {
    if b == [] {
      assert a + b == a;
    } else {
      var init := b[..|b| - 1];
      SplitPrefixStable(a, init);
      assert a + b == (a + init) + [b[|b| - 1]];
      SplitPush(a + init, b[|b| - 1]);
    }
  }

  lemma PieceInContent(cs: nat, source: Source, i: nat)
    requires cs <= |source| && i < |SplitLF(source[cs..])|
    ensures cs + Extent(SplitLF(source[cs..])[..i]) + |SplitLF(source[cs..])[i]| <= |source|
  {
    PieceInPlace(source[cs..], i);
  }

  /** Lines kept from earlier chunks are the same lines over the longer source. */
  lemma KeptIsMid(cs: nat, source: Source, more: Source, clips: seq<Clip>, base: nat)
    requires cs <= |source| && |clips| == |SplitLF(source[cs..])| - 1
    ensures AimPieces(Kept(SplitLF(source[cs..]), clips, cs, source), base, 0)
         == MidPieces(SplitLF(source[cs..]), clips, base, cs, source + more)
  {
    hide SplitLF, SourceRangeOf, LineOf, Extent, LineAt;
    var split := SplitLF(source[cs..]);
    forall i | 0 <= i < |clips|
      ensures ClippedAt(split, i, cs, source, clips[i]) == ClippedAt(split, i, cs, source + more, clips[i])
    {
      PieceInContent(cs, source, i);
      var offset := cs + Extent(split[..i]);
      LineAtStable(i, offset, |split[i]|, source, more);
      SourceRangeStable(source, more, Range(offset, offset + |StripCR(split[i])|));
    }
  }

  ghost predicate Missing(fence: OpenFence, source: Source)
    requires fence.contentStart <= |source|
  {
    Provisional(fence) && fence.complete == 1 && ProvisionallyEmpty(Split(fence, source))
  }

  /** What truncating to the complete lines leaves, at the start of the next chunk. */
  lemma TruncatedStart(fence: OpenFence, source: Source, more: Source, clips: seq<Clip>, base: nat, body: Body)
    requires Tracks(fence, source, clips, base, body)
    ensures var kept, split := body.TruncateLines(fence.complete), Split(fence, source);
            && |clips| == fence.complete == |split| - 1
            && if Missing(fence, source) then |kept.lines| < fence.complete
               else kept == Lay(MidPieces(split, clips, base, fence.contentStart, source + more))
  {
    hide Lay, LineAt, PieceAt, ClippedAt, MidPieces;
    var split, cs := Split(fence, source), fence.contentStart;
    var whole := AimPieces(KeptAndOpen(fence, source, clips), base, 0);
    var kept := AimPieces(Kept(split, clips, cs, source), base, 0);
    KeptIsMid(cs, source, more, clips, base);
    if NoContent(fence, source) {
      if !Provisional(fence) {
        assert source[cs..] == [];
      }
      EmptyLay([]);
      assert clips == [] ==> kept == [];
    } else {
      LayTruncate(whole, fence.complete);
      assert whole[..fence.complete] == kept;
    }
  }

  lemma NumberOfLines(fence: OpenFence, source: Source, clips: seq<Clip>, base: nat, body: Body)
    requires Tracks(fence, source, clips, base, body)
    ensures |body.lines| == if NoContent(fence, source) then 0
                            else if Provisional(fence) then fence.complete else fence.complete + 1
  {
    LaySize(AimPieces(KeptAndOpen(fence, source, clips), base, 0));
  }

  // ---- a whole chunk -------------------------------------------------------

  /** How the clips change over a chunk that leaves the fence open. */
  ghost function NextClips(fence: OpenFence, source: Source, clips: seq<Clip>, after: OpenFence,
                           longer: Source): (r: seq<Clip>)
    requires fence.contentStart <= |source| && after.contentStart <= |longer|
    requires |clips| <= after.complete == |Split(after, longer)| - 1
    ensures |r| == after.complete
  {
    if Provisional(after) then ProvisionalClips(Split(after, longer))
    else if Missing(fence, source) then seq(after.complete, _ => Exact)
    else NextOpenClips(clips, after.complete)
  }

  lemma NextClipsValid(fence: OpenFence, source: Source, more: Source, clips: seq<Clip>, after: OpenFence)
    requires Scanned(fence, source) && ClipsValid(fence, source, clips)
    requires Scanned(after, source + more) && !Provisional(after)
    requires after.contentStart == fence.contentStart && fence.complete <= after.complete
    ensures ClipsValid(after, source + more, NextOpenClips(clips, after.complete))
  {
    hide SplitLF, Opened, ClosedByCR;
    var cs := fence.contentStart;
    assert (source + more)[cs..] == source[cs..] + more;
    SplitPrefixStable(source[cs..], more);
    var split, longer := Split(fence, source), Split(after, source + more);
    forall i | 0 <= i < |clips|
      ensures split[i] == longer[i]
    {
      assert longer[..|split| - 1][i] == split[..|split| - 1][i];
    }
  }

  ghost predicate SameLines(a: Body, b: Body, n: nat) {
    && n <= |a.lines| && n <= |b.lines|
    && a.lines[..n] == b.lines[..n]
    && forall i :: 0 <= i < n ==> a.LineText(a.lines[i]) == b.LineText(b.lines[i])
  }

  lemma LaidSame(a: seq<Piece>, b: seq<Piece>, n: nat)
    requires n <= |a| && n <= |b| && a[..n] == b[..n]
    ensures SameLines(Lay(a), Lay(b), n)
  {
    hide Lay;
    LayPrefix(a, n);
    LayPrefix(b, n);
    forall i | 0 <= i < n
      ensures Lay(a).LineText(Lay(a).lines[i]) == Lay(b).LineText(Lay(b).lines[i])
    {
      LayAt(a, i);
      LayAt(b, i);
      assert a[i] == a[..n][i] == b[i];
    }
  }

  /** Lines before the reported one are the lines the block had before the chunk. */
  lemma TrackedPrefixAgrees(fence: OpenFence, source: Source, more: Source, clips: seq<Clip>, base: nat, body: Body,
                            after: OpenFence, from: nat)
    requires Tracks(fence, source, clips, base, body)
    requires Scanned(after, source + more) && !Provisional(after) && !Missing(fence, source)
    requires after.contentStart == fence.contentStart && fence.complete <= after.complete
    requires from <= Monus(|body.lines|, 1)
    ensures SameLines(TrackedBody(after, source + more, NextOpenClips(clips, after.complete), base), body, from)
  {
    hide SplitLF, Opened, ClosedByCR, Lay, LineAt, Clipped, PieceAt, ShortRange;
    NumberOfLines(fence, source, clips, base, body);
    var cs, longer := fence.contentStart, source + more;
    if from > 0 {
      assert longer[cs..] == source[cs..] + more;
      ContentExtent(cs, |source|, source);
      assert source[cs..|source|] == source[cs..];
      var next := NextOpenClips(clips, after.complete);
      var was, now := AimPieces(KeptAndOpen(fence, source, clips), base, 0),
          AimPieces(KeptAndOpen(after, longer, next), base, 0);
      forall i | 0 <= i < from
        ensures was[i] == now[i]
      {
        KeptPieceStable(cs, source, more, i, clips[i]);
      }
      LaidSame(now, was, from);
    }
  }

  lemma KeptPieceStable(cs: nat, source: Source, more: Source, i: nat, clip: Clip)
    requires cs <= |source| && i < |SplitLF(source[cs..])| - 1
    ensures i < |SplitLF((source + more)[cs..])| - 1
    ensures ClippedAt(SplitLF(source[cs..]), i, cs, source, clip)
         == ClippedAt(SplitLF((source + more)[cs..]), i, cs, source + more, clip)
  {
    hide SplitLF, LineOf, LineAt, SourceRangeOf, Extent;
    var split, longer := SplitLF(source[cs..]), SplitLF((source + more)[cs..]);
    assert (source + more)[cs..] == source[cs..] + more;
    SplitPrefixStable(source[cs..], more);
    SplitCountGrows(source[cs..], more);
    assert longer[..|split| - 1][i] == split[..|split| - 1][i];
    assert longer[..i] == longer[..|split| - 1][..i] == split[..i];
    PieceInContent(cs, source, i);
    var offset := cs + Extent(split[..i]);
    LineAtStable(i, offset, |split[i]|, source, more);
    SourceRangeStable(source, more, Range(offset, offset + |StripCR(split[i])|));
  }

  lemma SplitCountGrows(a: Source, b: Source)
    ensures |SplitLF(a)| <= |SplitLF(a + b)|
  {
    SplitCount(a);
    SplitCount(a + b);
    CountLFConcat(a, b);
  }

  /** The lines after the chunk, given the lines of a full rebuild. */
  lemma RebuiltTracks(fence: OpenFence, source: Source, clips: seq<Clip>, base: nat)
    requires Scanned(fence, source)
    requires clips == if Provisional(fence) then ProvisionalClips(Split(fence, source))
             else seq(fence.complete, _ => Exact)
    ensures Tracks(fence, source, clips, base, ScratchBody(fence.start, |source|, source, base))
  {
    hide SplitLF, Opened, ClosedByCR, TrackedBody, ScratchBody;
    TrackedIsScratchIffHarmless(fence, source, clips, base);
  }

  /** The fence after the chunk, and where it closed and where parsing resumes if it did. */
  datatype Close = Close(end: nat, resume: nat)

  ghost function EndOf(close: Option<Close>, source: Source): nat {
    if close.Some? then close.value.end else |source|
  }

  /** What a chunk does to the lines of an open fence, once those from `firstChanged` on have their
      targets: if it closed the fence they are the from-scratch lines, otherwise they are the tracked
      ones under the next clips. Lines before `firstChanged` are untouched. */
  ghost predicate LinesExtended(opening: OpenFence, source: Source, start: nat, previous: Body, clips: seq<Clip>,
                                base: nat, fence: OpenFence, closed: bool, end: nat, done: Body, firstChanged: nat,
                                    next: seq<Clip>)
  {
    && opening.contentStart == fence.contentStart <= start <= end <= |source| && opening.start <= end
    && SameLines(done, previous, firstChanged)
    && (closed ==> AimLines(done, base, firstChanged) == ScratchBody(opening.start, end, source, base))
    && (!closed ==>
          && |clips| <= fence.complete == |Split(fence, source)| - 1
          && next == NextClips(opening, source[..start], clips, fence, source)
          && Tracks(fence, source, next, base, AimLines(done, base, firstChanged)))
  }

  ghost predicate MidChunk(opening: OpenFence, source: Source, start: nat, previous: Body, clips: seq<Clip>, base: nat,
                           fence: OpenFence, closed: bool, end: nat, body: Body)
  {
    && opening.contentStart <= start <= end <= |source| && (!closed ==> end == |source|)
    && Tracks(opening, source[..start], clips, base, previous) && Scanned(fence, source[..end])
    && fence == opening.(lineStart := fence.lineStart, complete := fence.complete, state := fence.state)
    && (closed ==> Provisional(fence))
    && |clips| == opening.complete
    && MidBody(body, fence, source, end, clips, base, Missing(opening, source[..start]))
  }

  lemma RebuiltExtends(opening: OpenFence, source: Source, start: nat, previous: Body, clips: seq<Clip>, base: nat,
                       fence: OpenFence, closed: bool, end: nat, body: Body, next: seq<Clip>)
    requires MidChunk(opening, source, start, previous, clips, base, fence, closed, end, body)
    requires Provisional(fence) || |body.lines| < fence.complete
    requires next == if Provisional(fence) then ProvisionalClips(Split(fence, source))
             else seq(fence.complete, _ => Exact)
    ensures LinesExtended(opening, source, start, previous, clips, base, fence, closed, end,
                          FencedBody(ContentRange(Range(opening.start, end), source), source), 0, next)
  {
    hide SplitLF, Opened, ClosedByCR, ContentRange, TrackedBody, Lay, AimLines, FencedBody, NoContent, ClipsValid,
         ProvisionalClips, MidPieces, Missing;
    MissingShows(body, fence, source, end, clips, base, Missing(opening, source[..start]));
    if !closed {
      assert source[..|source|] == source;
      assert source[fence.contentStart..|source|] == source[fence.contentStart..];
      RebuiltTracks(fence, source, next, base);
    }
  }

  lemma OpenExtends(opening: OpenFence, source: Source, start: nat, previous: Body, clips: seq<Clip>, base: nat,
                    fence: OpenFence, body: Body, done: Body, firstChanged: nat)
    requires MidChunk(opening, source, start, previous, clips, base, fence, false, |source|, body)
    requires !Provisional(fence) && |body.lines| >= fence.complete
    requires firstChanged <= Monus(|previous.lines|, 1) && |clips| <= fence.complete == |Split(fence, source)| - 1
    requires AimLines(done, base, firstChanged)
             == TrackedBody(fence, source, NextOpenClips(clips, fence.complete), base)
    ensures LinesExtended(opening, source, start, previous, clips, base, fence, false, |source|, done, firstChanged,
                          NextOpenClips(clips, fence.complete))
  {
    hide SplitLF, Opened, ClosedByCR, TrackedBody, Lay, AimLines, NextOpenClips, ClipsValid, NoContent, MidPieces,
         Missing, SameLines;
    assert source[..|source|] == source && source == source[..start] + source[start..];
    MissingShows(body, fence, source, |source|, clips, base, Missing(opening, source[..start]));
    TrackedPrefixAgrees(opening, source[..start], source[start..], clips, base, previous, fence, firstChanged);
    NextClipsValid(opening, source[..start], source[start..], clips, fence);
    AimedPrefixSame(done, previous, base, firstChanged);
  }

  lemma MidChunkIsOpen(opening: OpenFence, source: Source, start: nat, previous: Body, clips: seq<Clip>, base: nat,
                       fence: OpenFence, body: Body)
    requires MidChunk(opening, source, start, previous, clips, base, fence, false, |source|, body)
    requires !Provisional(fence) && |body.lines| >= fence.complete
    ensures Scanned(fence, source) && Monus(|previous.lines|, 1) <= |clips| <= fence.complete
    ensures fence.contentStart <= |source| && fence.complete == |Split(fence, source)| - 1
    ensures body == Lay(MidPieces(Split(fence, source), clips, base, fence.contentStart, source))
  {
    hide SplitLF, Opened, ClosedByCR, TrackedBody, Lay, NoContent, MidPieces, Missing;
    assert source[..|source|] == source && source[fence.contentStart..|source|] == source[fence.contentStart..];
    MissingShows(body, fence, source, |source|, clips, base, Missing(opening, source[..start]));
    FromIsKept(opening, source[..start], clips, base, previous);
  }

  /** The lines once the chunk is used up: laid out afresh where the chunk left something to undo,
      otherwise completed by the line still open. */
  method SettleLines(opening: OpenFence, source: Source, start: nat, previous: Body, fence: OpenFence, closed: bool,
                     content: Range, body: Body, lineIndex: LineIndex,
                     ghost end: nat, ghost clips: seq<Clip>, ghost base: nat)
    returns (done: Body, firstChanged: nat, ghost next: seq<Clip>)
    requires MidChunk(opening, source, start, previous, clips, base, fence, closed, end, body)
    requires lineIndex.Indexes(source)
    requires opening.start <= end && content == ContentRange(Range(opening.start, end), source)
    ensures LinesExtended(opening, source, start, previous, clips, base, fence, closed, end, done, firstChanged, next)
  {
    hide LinesExtended, MidChunk, ContentRange, ProvisionalClips, NextOpenClips, TrackedBody, FencedBody, AimLines,
         MidPieces, SplitLF, Scanned;
    if Provisional(fence) || |body.lines| < fence.complete {
      FenceInContent(opening, source, start, previous, clips, base, fence, closed, end, body);
      next := if Provisional(fence) then ProvisionalClips(Split(fence, source)) else seq(fence.complete, _ => Exact);
      RebuiltExtends(opening, source, start, previous, clips, base, fence, closed, end, body, next);
      done := SetFencedLines(content, source, lineIndex);
      firstChanged := 0;
    } else {
      FenceInContent(opening, source, start, previous, clips, base, fence, closed, end, body);
      MidChunkIsOpen(opening, source, start, previous, clips, base, fence, body);
      firstChanged := Min(Monus(|previous.lines|, 1), fence.complete);
      next := NextOpenClips(clips, fence.complete);
      done := FinishOpenLines(fence, source, body, lineIndex, clips, base, firstChanged);
      OpenExtends(opening, source, start, previous, clips, base, fence, body, done, firstChanged);
    }
  }

  lemma FenceInContent(opening: OpenFence, source: Source, start: nat, previous: Body, clips: seq<Clip>, base: nat,
                       fence: OpenFence, closed: bool, end: nat, body: Body)
    requires MidChunk(opening, source, start, previous, clips, base, fence, closed, end, body)
    ensures fence.contentStart <= |source| && (!closed ==> end == |source|) && (closed ==> Provisional(fence))
  {
  }

  method ExtendCode(opening: OpenFence, source: Source, start: nat, code: CodeBlock, lineIndex: LineIndex,
                    ghost clips: seq<Clip>, ghost base: nat)
    returns (fence: OpenFence, close: Option<Close>, extended: CodeBlock, firstChanged: nat, ghost next: seq<Clip>)
    requires start <= |source| && Tracks(opening, source[..start], clips, base, code.body)
    requires lineIndex.Indexes(source)
    ensures fence == opening.(lineStart := fence.lineStart, complete := fence.complete, state := fence.state)
    // The first line end after which the fence is closed, wherever the chunks were cut.
    ensures opening.start < opening.contentStart <= start <= EndOf(close, source) <= |source|
    ensures forall p :: start <= p < EndOf(close, source) ==> !IsClosingEnd(opening, source, p)
    ensures close.Some? ==> close.value.end < |source| && IsClosingEnd(opening, source, close.value.end)
    ensures close.Some? ==> close.value.end < close.value.resume == AfterEol(source, close.value.end) <= |source|
    ensures FirstClosingEnd(opening, source, start) == if close.Some? then Some(close.value.end) else None
    // Everything but the lines is what a from-scratch pass gives.
    ensures extended == code.(body := extended.body, source := extended.source, content := extended.content)
    ensures extended.source == SourceRangeOf(Range(opening.start, EndOf(close, source)), source)
    ensures extended.content == SourceRangeOf(ContentRange(Range(opening.start, EndOf(close, source)), source), source)
    ensures close.Some? ==> extended.content.bytes.end < close.value.end
    ensures LinesExtended(opening, source, start, code.body, clips, base, fence, close.Some?, EndOf(close, source),
                          extended.body, firstChanged, next)
  {
    hide SplitLF, Scanned, ContentRange, MidBody, Missing, LinesExtended, FencedContentBounds, IsClosingEnd, Tracks,
         Lay;
    var kept := code.body.TruncateLines(opening.complete);
    StartChunk(opening, source, start, code.body, clips, base);
    var closeAt, body;
    fence, closeAt, body := ScanChunk(opening, source, start, kept, lineIndex, clips, base,
                                      Missing(opening, source[..start]));
    var blockEnd := |source|;
    close := None;
    if closeAt.Some? {
      blockEnd := closeAt.value;
      var crlf := source[blockEnd] == CR && blockEnd + 1 < |source| && source[blockEnd + 1] == LF;
      close := Some(Close(blockEnd, blockEnd + 1 + if crlf then 1 else 0));
    }
    FirstClosingIs(opening, source, start, blockEnd);
    ScannedRegisters(fence, source, blockEnd);
    ContentRangeOfScanned(fence, source, blockEnd);
    ContentBeforeCloser(fence, source, blockEnd);
    var closingStart := if close.Some? || fence.state.Closes(fence.count)
        then Some(Max(fence.lineStart, fence.contentStart)) else None;
    var content := FencedContentBounds(fence.contentStart, closingStart, blockEnd, source);
    body, firstChanged, next := SettleLines(opening, source, start, code.body, fence, close.Some?, content, body,
                                            lineIndex, blockEnd, clips, base);
    lineIndex.RangeOfIsSourceRange(source, content);
    lineIndex.RangeOfIsSourceRange(source, Range(fence.start, blockEnd));
    extended := code.(body := body, content := lineIndex.RangeOf(content),
                      source := lineIndex.RangeOf(Range(fence.start, blockEnd)));
  }

  /** A closing line is not empty, and content ends before it. */
  lemma ContentBeforeCloser(fence: OpenFence, source: Source, end: nat)
    requires end <= |source| && Scanned(fence, source[..end])
    ensures Provisional(fence) ==>
              fence.lineStart < end && FencedContentBounds(fence.contentStart, Some(fence.lineStart), end,
                                                           source).end < end
  {
    assert source[..end][fence.contentStart..] == source[fence.contentStart..end];
  }

  lemma StartChunk(opening: OpenFence, source: Source, start: nat, body: Body, clips: seq<Clip>, base: nat)
    requires start <= |source| && Tracks(opening, source[..start], clips, base, body)
    ensures opening.start < opening.contentStart <= start && Scanned(opening, source[..start])
    ensures |clips| == opening.complete
    ensures MidBody(body.TruncateLines(opening.complete), opening, source, start, clips, base,
                    Missing(opening, source[..start]))
  {
    hide SplitLF, Opened, ClosedByCR, TrackedBody, Lay, NoContent, MidPieces, Missing;
    assert source == source[..start] + source[start..];
    assert source[..start][opening.contentStart..] == source[opening.contentStart..start];
    TruncatedStart(opening, source[..start], source[start..], clips, base, body);
  }

  lemma MissingShows(body: Body, fence: OpenFence, source: Source, position: nat, clips: seq<Clip>, base: nat,
                     missing: bool)
    requires MidBody(body, fence, source, position, clips, base, missing)
    ensures missing <==> |body.lines| < fence.complete
  {
    hide SplitLF;
    if !missing {
      LaySize(MidPieces(SplitLF(source[fence.contentStart..position]), clips, base, fence.contentStart, source));
    }
  }

  lemma FromIsKept(fence: OpenFence, source: Source, clips: seq<Clip>, base: nat, body: Body)
    requires Tracks(fence, source, clips, base, body)
    ensures Monus(|body.lines|, 1) <= |clips|
  {
    NumberOfLines(fence, source, clips, base, body);
  }

  lemma AimedPrefixSame(body: Body, previous: Body, base: nat, from: nat)
    requires SameLines(AimLines(body, base, from), previous, from)
    ensures SameLines(body, previous, from)
  {
    var aimed := AimLines(body, base, from);
    assert aimed.lines[..from] == body.lines[..from];
    forall i | 0 <= i < from
      ensures body.LineText(body.lines[i]) == previous.LineText(previous.lines[i])
    {
      assert aimed.lines[i] == body.lines[i];
    }
  }
}
