/**
 Whole runs of an open fence: any number of chunks, cut anywhere. The kept lines are the
 from-scratch lines except in one family of runs, which is described exactly.
 */
module FenceRuns {
  import opened Bytes
  import opened LineIndexing
  import opened FenceLines
  import opened CodeBlocks
  import opened OpenFences
  import opened FenceExtension

  /** The scanner's registers over `source`, which nothing but the source determines. */
  ghost function FenceOver(fence: OpenFence, source: Source): OpenFence
    requires fence.contentStart <= |source|
  {
    var line := CurrentLine(fence, source);
    fence.(lineStart := Monus(|source|, |line|), complete := |Split(fence, source)| - 1,
           state := ScanLine(line, fence.marker, fence.count))
  }

  lemma ScannedIsFenceOver(fence: OpenFence, source: Source)
    requires Scanned(fence, source)
    ensures fence == FenceOver(fence, source)
  {
  }

  ghost predicate NoClosingEnd(fence: OpenFence, source: Source, from: nat)
    requires fence.contentStart <= from
  {
    forall p :: from <= p < |source| ==> !IsClosingEnd(fence, source, p)
  }

  /** Bytes with no closing line end in them leave the fence open, however many there are. */
  lemma {:induction false} ScannedExtends(fence: OpenFence, source: Source, end: nat)
    requires fence.contentStart <= end <= |source| && Scanned(fence, source[..end])
    requires NoClosingEnd(fence, source, end)
    ensures Scanned(FenceOver(fence, source), source)
    decreases |source| - end
  {
    hide SplitLF, Scanned, Opened, ClosedByCR;
    if end == |source| {
      assert source[..end] == source;
      ScannedIsFenceOver(fence, source);
    } else {
      ScannedCloses(fence, source, end);
      ScanByte(fence, source, end);
      ClosingEndsSame(fence, Advance(fence, end, source[end]), source, end + 1);
      ScannedExtends(Advance(fence, end, source[end]), source, end + 1);
    }
  }

  function Flatten(chunks: seq<Source>): Source {
    if chunks == [] then [] else chunks[0] + Flatten(chunks[1..])
  }

  /** The clips after `chunks` arrived one by one. */
  ghost function RunClips(fence: OpenFence, source: Source, clips: seq<Clip>, chunks: seq<Source>): seq<Clip>
    requires fence.contentStart <= |source|
    requires |clips| == |Split(fence, source)| - 1
    decreases |chunks|
  {
    if chunks == [] then clips
    else
      var longer := source + chunks[0];
      ClipsFit(fence, source, chunks[0]);
      RunClips(fence, longer, NextClips(FenceOver(fence, source), source, clips, FenceOver(fence, longer), longer),
               chunks[1..])
  }

  lemma ClipsFit(fence: OpenFence, source: Source, chunk: Source)
    requires fence.contentStart <= |source|
    ensures |Split(fence, source)| <= |Split(fence, source + chunk)|
  {
    assert (source + chunk)[fence.contentStart..] == source[fence.contentStart..] + chunk;
    SplitCountGrows(source[fence.contentStart..], chunk);
  }

  ghost function InitialClips(fence: OpenFence, source: Source): seq<Clip>
    requires fence.contentStart <= |source|
  {
    if Provisional(fence) then ProvisionalClips(Split(fence, source)) else seq(|Split(fence, source)| - 1, _ => Exact)
  }

  lemma RunStepValid(fence: OpenFence, source: Source, chunk: Source, clips: seq<Clip>)
    requires Scanned(fence, source) && ClipsValid(fence, source, clips)
    requires var after := FenceOver(fence, source + chunk); Scanned(after, source + chunk)
    ensures |clips| <= |Split(fence, source + chunk)| - 1
    ensures ClipsValid(FenceOver(fence, source + chunk), source + chunk,
                       NextClips(fence, source, clips, FenceOver(fence, source + chunk), source + chunk))
  {
    hide SplitLF, Opened, ClosedByCR;
    var after := FenceOver(fence, source + chunk);
    ClipsFit(fence, source, chunk);
    if Provisional(after) {
      ProvisionalClipsMeanCR(Split(after, source + chunk));
    } else if !Missing(fence, source) {
      NextClipsValid(fence, source, chunk, clips, after);
    }
  }

  lemma ProvisionalClipsMeanCR(split: seq<Source>)
    requires split != []
    ensures forall i :: 0 <= i < |split| - 1 && ProvisionalClips(split)[i] != Exact ==> EndsWithCR(split[i])
  {
  }

  /** After any run of chunks the block's lines are the from-scratch lines exactly when the current
      line is a provisional closer or the run's clips do not show. */
  lemma {:induction false} RunIsScratchIff(fence: OpenFence, source: Source, clips: seq<Clip>, chunks: seq<Source>,
                                           base: nat)
    requires Scanned(fence, source) && ClipsValid(fence, source, clips)
    requires NoClosingEnd(fence, source + Flatten(chunks), |source|)
    ensures var whole := source + Flatten(chunks);
            var after := FenceOver(fence, whole);
            var last := RunClips(fence, source, clips, chunks);
            && Scanned(after, whole) && ClipsValid(after, whole, last)
            && (TrackedBody(after, whole, last, base) == ScratchBody(fence.start, |whole|, whole, base)
                <==> Provisional(after) || Harmless(Split(after, whole), last))
    decreases |chunks|
  {
    hide SplitLF, Scanned, ClipsValid, Opened, ClosedByCR, NextClips, Harmless, TrackedBody, ScratchBody, ScanLine;
    var whole := source + Flatten(chunks);
    RunFacts(fence, source, clips);
    if chunks == [] {
      assert whole == source;
      TrackedIsScratchIffHarmless(fence, source, clips, base);
    } else {
      var longer := source + chunks[0];
      var after := FenceOver(fence, longer);
      assert whole == longer + Flatten(chunks[1..]);
      assert longer[..|source|] == source;
      ClosingEndsStable(fence, longer, Flatten(chunks[1..]), |source|);
      ScannedExtends(fence, longer, |source|);
      ClipsFit(fence, source, chunks[0]);
      RunStepValid(fence, source, chunks[0], clips);
      ClosingEndsSame(fence, after, whole, |longer|);
      RunIsScratchIff(after, longer, NextClips(fence, source, clips, after, longer), chunks[1..], base);
      RunClipsSame(fence, after, longer, NextClips(fence, source, clips, after, longer), chunks[1..]);
    }
  }

  lemma RunFacts(fence: OpenFence, source: Source, clips: seq<Clip>)
    requires Scanned(fence, source) && ClipsValid(fence, source, clips)
    ensures |clips| == |Split(fence, source)| - 1 && fence == FenceOver(fence, source)
    ensures fence.start < fence.contentStart <= |source|
  {
  }

  lemma ClosingEndsStable(fence: OpenFence, source: Source, more: Source, from: nat)
    requires fence.contentStart <= from <= |source| && NoClosingEnd(fence, source + more, from)
    ensures NoClosingEnd(fence, source, from)
  {
    forall p | from <= p < |source|
      ensures !IsClosingEnd(fence, source, p)
    {
      assert !IsClosingEnd(fence, source + more, p);
      assert (source + more)[fence.contentStart..p] == source[fence.contentStart..p];
    }
  }

  lemma ClosingEndsSame(fence: OpenFence, moved: OpenFence, source: Source, from: nat)
    requires fence.contentStart == moved.contentStart <= from && fence.marker == moved.marker
             && fence.count == moved.count
    ensures NoClosingEnd(fence, source, from) <==> NoClosingEnd(moved, source, from)
  {
    assert forall p :: from <= p < |source| ==> (IsClosingEnd(fence, source, p) <==> IsClosingEnd(moved, source, p));
  }

  lemma {:induction false} RunClipsSame(fence: OpenFence, moved: OpenFence, source: Source, clips: seq<Clip>,
                                        chunks: seq<Source>)
    requires fence.contentStart <= |source| && |clips| == |Split(fence, source)| - 1
    requires moved == fence.(lineStart := moved.lineStart, complete := moved.complete, state := moved.state)
    ensures RunClips(fence, source, clips, chunks) == RunClips(moved, source, clips, chunks)
    decreases |chunks|
  {
    hide SplitLF, NextClips;
    if chunks != [] {
      var longer := source + chunks[0];
      ClipsFit(fence, source, chunks[0]);
      assert FenceOver(fence, source) == FenceOver(moved, source)
             && FenceOver(fence, longer) == FenceOver(moved, longer);
      RunClipsSame(fence, moved, longer,
                   NextClips(FenceOver(fence, source), source, clips, FenceOver(fence, longer), longer), chunks[1..]);
    }
  }

  // ---- when a chunk loses a carriage return --------------------------------

  /** The chunk cancels a provisional closer that had cost the line before it its carriage return,
      and does not let that line be repaired: either the cancelled line is completed in the same
      chunk, or the line ended in two carriage returns. */
  ghost predicate LosesCR(fence: OpenFence, source: Source, after: OpenFence)
    requires fence.contentStart <= |source|
  {
    var split := Split(fence, source);
    && Provisional(fence) && !ProvisionallyEmpty(split)
    && EndsWithCR(split[|split| - 2])
    && (after.complete > fence.complete || EndsWithCR(StripCR(split[|split| - 2])))
  }

  /** Exactly when a block whose lines are the from-scratch ones stops having them: the condition
      looks only at the fence before the chunk and at how many lines the chunk completes. */
  lemma ChunkStaysExactIff(fence: OpenFence, source: Source, chunk: Source, clips: seq<Clip>)
    requires Scanned(fence, source) && ClipsValid(fence, source, clips)
    requires Provisional(fence) || Harmless(Split(fence, source), clips)
    requires Scanned(FenceOver(fence, source + chunk), source + chunk)
    ensures |clips| <= |Split(fence, source + chunk)| - 1
    ensures var after := FenceOver(fence, source + chunk);
            !Provisional(after) ==>
              (Harmless(Split(after, source + chunk), NextClips(fence, source, clips, after, source + chunk))
               <==> !LosesCR(fence, source, after))
  {
    hide SplitLF, Opened, ClosedByCR, ScanLine;
    var cs := fence.contentStart;
    var after := FenceOver(fence, source + chunk);
    var split, longer := Split(fence, source), Split(after, source + chunk);
    ClipsFit(fence, source, chunk);
    assert (source + chunk)[cs..] == source[cs..] + chunk;
    SplitPrefixStable(source[cs..], chunk);
    forall i | 0 <= i < |clips|
      ensures split[i] == longer[i]
    {
      assert longer[..|split| - 1][i] == split[..|split| - 1][i];
    }
    if !Provisional(after) && clips != [] {
      StripTwice(split[|clips| - 1]);
    }
  }

  lemma StripTwice(s: Source)
    ensures StripCR(StripCR(s)) == StripCR(s) <==> !EndsWithCR(StripCR(s))
  {
  }

  /** Whether a run has lost a carriage return after one more chunk, when it `lost` one before or not. A provisional
      closer repairs everything; one that is cancelled decides anew. */
  ghost predicate LostAfter(fence: OpenFence, source: Source, after: OpenFence, lost: bool)
    requires fence.contentStart <= |source|
  {
    !Provisional(after) && if Provisional(fence) then LosesCR(fence, source, after) else lost
  }

  /** Whether a run has lost a carriage return in the end: a function of the source and of where it was cut. */
  ghost predicate RunLoses(fence: OpenFence, source: Source, lost: bool, chunks: seq<Source>)
    requires fence.contentStart <= |source|
    decreases |chunks|
  {
    if chunks == [] then lost
    else
      var longer := source + chunks[0];
      RunLoses(fence, longer, LostAfter(FenceOver(fence, source), source, FenceOver(fence, longer), lost), chunks[1..])
  }

  /** The lines differ from the from-scratch ones. */
  ghost predicate Lost(fence: OpenFence, source: Source, clips: seq<Clip>)
    requires fence.contentStart <= |source| && |clips| <= |Split(fence, source)|
  {
    !Provisional(fence) && !Harmless(Split(fence, source), clips)
  }

  lemma ChunkLosesIff(fence: OpenFence, source: Source, chunk: Source, clips: seq<Clip>)
    requires Scanned(fence, source) && ClipsValid(fence, source, clips)
    requires Scanned(FenceOver(fence, source + chunk), source + chunk)
    ensures |clips| <= |Split(fence, source + chunk)| - 1
    ensures var after := FenceOver(fence, source + chunk);
            Lost(after, source + chunk, NextClips(fence, source, clips, after, source + chunk))
            <==> LostAfter(fence, source, after, Lost(fence, source, clips))
  {
    hide SplitLF, Opened, ClosedByCR, ScanLine, Harmless, NextClips;
    var after := FenceOver(fence, source + chunk);
    ClipsFit(fence, source, chunk);
    if Lost(fence, source, clips) {
      if !Provisional(after) {
        HarmStays(fence, source, chunk, clips);
      }
    } else {
      ChunkStaysExactIff(fence, source, chunk, clips);
    }
  }

  lemma HarmStays(fence: OpenFence, source: Source, chunk: Source, clips: seq<Clip>)
    requires Scanned(fence, source) && ClipsValid(fence, source, clips) && Lost(fence, source, clips)
    requires Scanned(FenceOver(fence, source + chunk), source + chunk)
    requires !Provisional(FenceOver(fence, source + chunk))
    ensures |clips| <= |Split(fence, source + chunk)| - 1
    ensures var after := FenceOver(fence, source + chunk);
            !Harmless(Split(after, source + chunk), NextClips(fence, source, clips, after, source + chunk))
  {
    hide SplitLF, Opened, ClosedByCR, ScanLine;
    var cs := fence.contentStart;
    var after := FenceOver(fence, source + chunk);
    var split, longer := Split(fence, source), Split(after, source + chunk);
    ClipsFit(fence, source, chunk);
    assert (source + chunk)[cs..] == source[cs..] + chunk;
    SplitPrefixStable(source[cs..], chunk);
    var next := NextClips(fence, source, clips, after, source + chunk);
    var i :| 0 <= i < |clips| && clips[i] != Exact
             && !(clips[i] == TextOnly && StripCR(StripCR(split[i])) == StripCR(split[i]));
    assert longer[i] == longer[..|split| - 1][i] == split[..|split| - 1][i] == split[i];
    assert next[i] == clips[i];
  }

  lemma {:induction false} RunLosesIffLost(fence: OpenFence, source: Source, clips: seq<Clip>, chunks: seq<Source>)
    requires Scanned(fence, source) && ClipsValid(fence, source, clips)
    requires NoClosingEnd(fence, source + Flatten(chunks), |source|)
    ensures fence.contentStart <= |source| && |clips| == |Split(fence, source)| - 1
    ensures var whole := source + Flatten(chunks);
            |RunClips(fence, source, clips, chunks)| == |Split(fence, whole)| - 1
    ensures var whole := source + Flatten(chunks);
            RunLoses(fence, source, Lost(fence, source, clips), chunks)
            <==> Lost(FenceOver(fence, whole), whole, RunClips(fence, source, clips, chunks))
    decreases |chunks|
  {
    hide SplitLF, Scanned, ClipsValid, Opened, ClosedByCR, NextClips, Harmless, ScanLine, LosesCR;
    var whole := source + Flatten(chunks);
    RunFacts(fence, source, clips);
    if chunks == [] {
      assert whole == source;
    } else {
      var longer := source + chunks[0];
      var after := FenceOver(fence, longer);
      assert whole == longer + Flatten(chunks[1..]);
      assert longer[..|source|] == source;
      ClosingEndsStable(fence, longer, Flatten(chunks[1..]), |source|);
      ScannedExtends(fence, longer, |source|);
      ClipsFit(fence, source, chunks[0]);
      RunStepValid(fence, source, chunks[0], clips);
      ChunkLosesIff(fence, source, chunks[0], clips);
      ClosingEndsSame(fence, after, whole, |longer|);
      var next := NextClips(fence, source, clips, after, longer);
      RunLosesIffLost(after, longer, next, chunks[1..]);
      RunClipsSame(fence, after, longer, next, chunks[1..]);
      RunLosesSame(fence, after, longer, Lost(after, longer, next), chunks[1..]);
    }
  }

  lemma {:induction false} RunLosesSame(fence: OpenFence, moved: OpenFence, source: Source, lost: bool,
                                        chunks: seq<Source>)
    requires fence.contentStart <= |source|
    requires moved == fence.(lineStart := moved.lineStart, complete := moved.complete, state := moved.state)
    ensures RunLoses(fence, source, lost, chunks) <==> RunLoses(moved, source, lost, chunks)
    decreases |chunks|
  {
    hide SplitLF, LosesCR;
    if chunks != [] {
      var longer := source + chunks[0];
      assert FenceOver(fence, source) == FenceOver(moved, source)
             && FenceOver(fence, longer) == FenceOver(moved, longer);
      RunLosesSame(fence, moved, longer,
                   LostAfter(FenceOver(fence, source), source, FenceOver(fence, longer), lost), chunks[1..]);
    }
  }

  /** After any run of chunks the block's lines are the from-scratch lines exactly when the cuts lost no carriage
      return. A block just found to be open has lost none. */
  lemma CutsDecide(fence: OpenFence, source: Source, clips: seq<Clip>, chunks: seq<Source>, base: nat)
    requires Scanned(fence, source) && ClipsValid(fence, source, clips)
    requires NoClosingEnd(fence, source + Flatten(chunks), |source|)
    ensures fence.contentStart <= |source| && |clips| == |Split(fence, source)| - 1
    ensures var whole := source + Flatten(chunks);
            |RunClips(fence, source, clips, chunks)| == |Split(fence, whole)| - 1
            && (TrackedBody(FenceOver(fence, whole), whole, RunClips(fence, source, clips, chunks), base)
                == ScratchBody(fence.start, |whole|, whole, base)
                <==> !RunLoses(fence, source, Lost(fence, source, clips), chunks))
    ensures clips == InitialClips(fence, source) ==> !Lost(fence, source, clips)
  {
    hide SplitLF, Scanned, ClipsValid, NextClips, TrackedBody, ScratchBody, ScanLine, RunClips, RunLoses;
    RunFacts(fence, source, clips);
    RunIsScratchIff(fence, source, clips, chunks, base);
    RunLosesIffLost(fence, source, clips, chunks);
  }

  // ---- the chunks one by one -----------------------------------------------

  /** Feeds chunks that do not close the fence to the open block one by one, giving its lines their targets after
      each. Its lines are then the ones the run's clips describe, so they are the from-scratch lines exactly when
      those clips do not show, and exactly when the cuts lost no carriage return. */
  method FollowChunks(opening: OpenFence, source: Source, code: CodeBlock, chunks: seq<Source>, lineIndex: LineIndex,
                      base: nat, ghost clips: seq<Clip>)
    returns (fence: OpenFence, whole: Source, extended: CodeBlock, ghost last: seq<Clip>)
    requires Tracks(opening, source, clips, base, code.body) && lineIndex.Indexes(source)
    requires NoClosingEnd(opening, source + Flatten(chunks), |source|)
    modifies lineIndex
    ensures whole == source + Flatten(chunks) && lineIndex.Indexes(whole)
    ensures opening.contentStart <= |source| && |clips| == |Split(opening, source)| - 1
    ensures fence == FenceOver(opening, whole) && last == RunClips(opening, source, clips, chunks)
    ensures Tracks(fence, whole, last, base, extended.body)
    ensures extended.body == ScratchBody(opening.start, |whole|, whole, base)
            <==> Provisional(fence) || Harmless(Split(fence, whole), last)
    ensures extended.body == ScratchBody(opening.start, |whole|, whole, base)
            <==> !RunLoses(opening, source, Lost(opening, source, clips), chunks)
    ensures chunks != [] ==>
              && extended.source == SourceRangeOf(Range(opening.start, |whole|), whole)
              && extended.content == SourceRangeOf(ContentRange(Range(opening.start, |whole|), whole), whole)
  {
    hide SplitLF, Scanned, ClipsValid, Opened, ClosedByCR, NextClips, Harmless, TrackedBody, ScratchBody, ScanLine,
         LinesExtended, AimLines, LineIndex.Indexes, ContentRange, RunClips, NoClosingEnd, IsClosingEnd,
         FirstClosingEnd, RunLoses, Lost;
    fence, whole, extended, last := opening, source, code, clips;
    TracksFacts(opening, source, clips, base, code.body);
    assert whole + Flatten(chunks[0..]) == source + Flatten(chunks) by { assert chunks[0..] == chunks; }
    RunFromHere(opening, source, clips, chunks);
    for i := 0 to |chunks|
      invariant whole + Flatten(chunks[i..]) == source + Flatten(chunks) && lineIndex.Indexes(whole)
      invariant opening.contentStart <= |source| <= |whole| && fence == FenceOver(opening, whole)
      invariant fence.contentStart == opening.contentStart && fence.start == opening.start
      invariant Tracks(fence, whole, last, base, extended.body) && |last| == |Split(fence, whole)| - 1
      invariant |clips| == |Split(opening, source)| - 1
      invariant RunClips(fence, whole, last, chunks[i..]) == RunClips(opening, source, clips, chunks)
      invariant NoClosingEnd(fence, whole + Flatten(chunks[i..]), |whole|)
      invariant i > 0 ==>
                  && extended.source == SourceRangeOf(Range(opening.start, |whole|), whole)
                  && extended.content == SourceRangeOf(ContentRange(Range(opening.start, |whole|), whole), whole)
    {
      fence, whole, extended, last := FollowChunk(fence, whole, extended, chunks[i..], lineIndex, base, last);
      assert chunks[i..][1..] == chunks[i + 1..];
    }
    EndOfRun(opening, fence, source, whole, clips, last, chunks, base);
    CutsDecide(opening, source, clips, chunks, base);
  }

  lemma TracksFacts(fence: OpenFence, source: Source, clips: seq<Clip>, base: nat, body: Body)
    requires Tracks(fence, source, clips, base, body)
    ensures fence.contentStart <= |source| && fence == FenceOver(fence, source) && |clips| == |Split(fence, source)| - 1
    ensures Scanned(fence, source) && ClipsValid(fence, source, clips)
            && body == TrackedBody(fence, source, clips, base)
  {
  }

  lemma RunFromHere(fence: OpenFence, source: Source, clips: seq<Clip>, chunks: seq<Source>)
    requires fence.contentStart <= |source| && |clips| == |Split(fence, source)| - 1
    ensures RunClips(fence, source, clips, chunks[0..]) == RunClips(fence, source, clips, chunks)
  {
    assert chunks[0..] == chunks;
  }

  lemma EndOfRun(opening: OpenFence, fence: OpenFence, source: Source, whole: Source, clips: seq<Clip>, last: seq<Clip>,
                 chunks: seq<Source>, base: nat)
    requires opening.contentStart <= |source| && |clips| == |Split(opening, source)| - 1
    requires fence.contentStart <= |whole| && |last| == |Split(fence, whole)| - 1 && fence.start == opening.start
    requires RunClips(fence, whole, last, chunks[|chunks|..]) == RunClips(opening, source, clips, chunks)
    requires whole + Flatten(chunks[|chunks|..]) == source + Flatten(chunks)
    requires Scanned(fence, whole) && ClipsValid(fence, whole, last)
    ensures whole == source + Flatten(chunks) && last == RunClips(opening, source, clips, chunks)
    ensures TrackedBody(fence, whole, last, base) == ScratchBody(opening.start, |whole|, whole, base)
            <==> Provisional(fence) || Harmless(Split(fence, whole), last)
  {
    hide SplitLF, Scanned, ClipsValid, Harmless, TrackedBody, ScratchBody, NextClips, FenceOver, Provisional;
    assert chunks[|chunks|..] == [];
    NoChunks(fence, whole, last);
    TrackedIsScratchIffHarmless(fence, whole, last, base);
  }

  lemma NoChunks(fence: OpenFence, source: Source, clips: seq<Clip>)
    requires fence.contentStart <= |source| && |clips| == |Split(fence, source)| - 1
    ensures RunClips(fence, source, clips, []) == clips && source + Flatten([]) == source
  {
  }

  /** One chunk of a run. */
  method FollowChunk(opening: OpenFence, source: Source, code: CodeBlock, chunks: seq<Source>, lineIndex: LineIndex,
                     base: nat, ghost clips: seq<Clip>)
    returns (fence: OpenFence, longer: Source, extended: CodeBlock, ghost next: seq<Clip>)
    requires chunks != [] && Tracks(opening, source, clips, base, code.body) && lineIndex.Indexes(source)
    requires NoClosingEnd(opening, source + Flatten(chunks), |source|)
    modifies lineIndex
    ensures longer == source + chunks[0] && longer + Flatten(chunks[1..]) == source + Flatten(chunks)
            && lineIndex.Indexes(longer)
    ensures opening.contentStart <= |source| && fence == FenceOver(opening, longer) == FenceOver(fence, longer)
    ensures fence.contentStart == opening.contentStart && fence.start == opening.start
    ensures Tracks(fence, longer, next, base, extended.body) && |next| == |Split(fence, longer)| - 1
    ensures |clips| == |Split(opening, source)| - 1
    ensures RunClips(fence, longer, next, chunks[1..]) == RunClips(opening, source, clips, chunks)
    ensures NoClosingEnd(fence, longer + Flatten(chunks[1..]), |longer|)
    ensures extended.source == SourceRangeOf(Range(opening.start, |longer|), longer)
    ensures extended.content == SourceRangeOf(ContentRange(Range(opening.start, |longer|), longer), longer)
  {
    hide SplitLF, Scanned, ClipsValid, Opened, ClosedByCR, NextClips, TrackedBody, ScratchBody, ScanLine, AimLines,
         LineIndex.Indexes, ContentRange, RunClips, IsClosingEnd, Tracks, FenceOver, FirstClosingEnd;
    TracksFacts(opening, source, clips, base, code.body);
    longer := source + chunks[0];
    assert longer[..|source|] == source;
    lineIndex.Extend(longer, |source|);
    assert longer + Flatten(chunks[1..]) == source + Flatten(chunks);
    ClosingEndsStable(opening, longer, Flatten(chunks[1..]), |source|);
    var close, changed;
    fence, close, extended, changed, next := ExtendCode(opening, longer, |source|, code, lineIndex, clips, base);
    assert close.None?;
    extended := extended.(body := AimLines(extended.body, base, changed));
    TracksFacts(fence, longer, next, base, extended.body);
    RunStep(opening, fence, source, clips, next, chunks);
    ClosingEndsSame(opening, fence, longer + Flatten(chunks[1..]), |longer|);
  }

  lemma RunStep(opening: OpenFence, fence: OpenFence, source: Source, clips: seq<Clip>, next: seq<Clip>,
                chunks: seq<Source>)
    requires chunks != [] && opening.contentStart <= |source| && opening == FenceOver(opening, source)
             && |clips| == |Split(opening, source)| - 1
    requires fence == opening.(lineStart := fence.lineStart, complete := fence.complete, state := fence.state)
    requires var longer := source + chunks[0];
             && fence == FenceOver(fence, longer) && |clips| <= fence.complete == |Split(fence, longer)| - 1 == |next|
             && next == NextClips(opening, source, clips, fence, longer)
    ensures fence == FenceOver(opening, source + chunks[0])
    ensures RunClips(fence, source + chunks[0], next, chunks[1..]) == RunClips(opening, source, clips, chunks)
  {
    hide SplitLF, NextClips, ScanLine;
    var longer := source + chunks[0];
    ClipsFit(opening, source, chunks[0]);
    assert FenceOver(opening, longer) == FenceOver(fence, longer);
    RunClipsSame(opening, fence, longer, next, chunks[1..]);
  }

  // ---- runs that lose nothing ----------------------------------------------

  /** Content without carriage returns: from-scratch lines, under any chunking. */
  lemma NoCRIsExact(fence: OpenFence, source: Source, clips: seq<Clip>, base: nat, body: Body)
    requires Tracks(fence, source, clips, base, body) && CR !in source[fence.contentStart..]
    ensures body == ScratchBody(fence.start, |source|, source, base)
  {
    hide SplitLF, TrackedBody, ScratchBody;
    TrackedIsScratchIffHarmless(fence, source, clips, base);
    var content, split := source[fence.contentStart..], Split(fence, source);
    forall i | 0 <= i < |clips|
      ensures clips[i] == Exact
    {
      PieceInPlace(content, i);
      var at := Extent(split[..i]);
      assert forall j :: 0 <= j < |split[i]| ==> split[i][j] == content[at..at + |split[i]|][j] == content[at + j];
    }
  }

  ghost predicate NoRangeLost(fence: OpenFence, clips: seq<Clip>) {
    forall i :: 0 <= i < |clips| && clips[i] == TextAndRange ==> Provisional(fence) && i == |clips| - 1
  }

  /** No line of the content ends in two carriage returns. */
  ghost predicate NoDoubleCR(split: seq<Source>) {
    forall i :: 0 <= i < |split| ==> StripCR(StripCR(split[i])) == StripCR(split[i])
  }

  /** Streaming one byte at a time never loses a source range. */
  lemma ByteKeepsRanges(fence: OpenFence, source: Source, b: byte, clips: seq<Clip>)
    requires Scanned(fence, source) && ClipsValid(fence, source, clips) && NoRangeLost(fence, clips)
    requires !ClosesAt(fence, b)
    ensures var after := FenceOver(fence, source + [b]);
            && |clips| <= |Split(fence, source + [b])| - 1
            && Scanned(after, source + [b])
            && NoRangeLost(after, NextClips(fence, source, clips, after, source + [b]))
  {
    hide SplitLF, Opened, ClosedByCR;
    ClipsFit(fence, source, [b]);
    ScanStep(fence, source, b);
    ScannedIsFenceOver(Advance(fence, |source|, b), source + [b]);
    assert FenceOver(fence, source + [b]) == FenceOver(Advance(fence, |source|, b), source + [b]);
    if Provisional(fence) {
      assert b != LF;
    }
  }

  /** So byte by byte the lines are the from-scratch ones, double carriage returns aside. */
  lemma BytewiseIsExact(fence: OpenFence, source: Source, clips: seq<Clip>, base: nat, body: Body)
    requires Tracks(fence, source, clips, base, body)
    requires NoRangeLost(fence, clips) && NoDoubleCR(Split(fence, source))
    ensures body == ScratchBody(fence.start, |source|, source, base)
  {
    hide SplitLF, TrackedBody, ScratchBody, Scanned;
    TrackedIsScratchIffHarmless(fence, source, clips, base);
  }

  // ---- a run that does lose one --------------------------------------------

  const TICKS: Source := [BACKTICK, BACKTICK, BACKTICK]
  const OPENING: Source := TICKS + [LF]
  /** `x` CR LF and three backticks. */
  const CLOSER_AFTER_CRLF: Source := [120, CR, LF] + TICKS
  /** `a` LF `y`. */
  const REST_OF_LINE: Source := [97, LF, 121]
  const AT_CLOSER: OpenFence := OpenFence(0, BACKTICK, 3, 0, 4, 7, 1, Marker(3))
  const AFTER_REST: OpenFence := OpenFence(0, BACKTICK, 3, 0, 4, 12, 2, Content)

  /** The second chunk looks like a closer; the third shows it was not one and completes that line
      in the same breath. Line 0 keeps a source range that is one byte short. */
  lemma CancelledCloserLosesCR(base: nat)
    ensures var before := OPENING + CLOSER_AFTER_CRLF;
            var whole := before + REST_OF_LINE;
            && Scanned(AT_CLOSER, before) && Scanned(AFTER_REST, whole)
            && NoClosingEnd(AT_CLOSER, whole, |before|)
            && |InitialClips(AT_CLOSER, before)| <= AFTER_REST.complete
            && TrackedBody(AFTER_REST, whole,
                           NextClips(AT_CLOSER, before, InitialClips(AT_CLOSER, before), AFTER_REST, whole), base)
               != ScratchBody(0, |whole|, whole, base)
  {
    hide TrackedBody, ScratchBody, ClosedByCR, NextClips, Lay;
    var before := OPENING + CLOSER_AFTER_CRLF;
    var whole := before + REST_OF_LINE;
    WitnessScanned();
    WitnessNotClosed();
    var clips := InitialClips(AT_CLOSER, before);
    ProvisionalClipsMeanCR(Split(AT_CLOSER, before));
    ScannedIsFenceOver(AT_CLOSER, before);
    ScannedIsFenceOver(AFTER_REST, whole);
    assert FenceOver(AT_CLOSER, whole) == FenceOver(AFTER_REST, whole) == AFTER_REST;
    ChunkStaysExactIff(AT_CLOSER, before, REST_OF_LINE, clips);
    RunStepValid(AT_CLOSER, before, REST_OF_LINE, clips);
    TrackedIsScratchIffHarmless(AFTER_REST, whole, NextClips(AT_CLOSER, before, clips, AFTER_REST, whole), base);
  }

  lemma WitnessSplits()
    ensures (OPENING + CLOSER_AFTER_CRLF)[4..] == CLOSER_AFTER_CRLF
    ensures (OPENING + CLOSER_AFTER_CRLF + REST_OF_LINE)[4..] == CLOSER_AFTER_CRLF + REST_OF_LINE
    ensures SplitLF(CLOSER_AFTER_CRLF) == [[120, CR], TICKS]
    ensures SplitLF(CLOSER_AFTER_CRLF + REST_OF_LINE) == [[120, CR], TICKS + [97], [121]]
  {
    hide SplitLF;
    var x: Source := [120, CR];
    assert CLOSER_AFTER_CRLF == (x + [LF]) + TICKS;
    SplitAfterLF(x);
    SplitWithoutLFs(x + [LF], TICKS);
    var none: Source := [];
    assert none + TICKS == TICKS && [x, none][..1] == [x];
    assert SplitLF(CLOSER_AFTER_CRLF) == [x, TICKS];
    assert [x, TICKS][..1] == [x] && [x, TICKS + [97], none][..2] == [x, TICKS + [97]];
    var cancelled := CLOSER_AFTER_CRLF + [97];
    SplitPush(CLOSER_AFTER_CRLF, 97);
    assert SplitLF(cancelled) == [x, TICKS + [97]];
    SplitPush(cancelled, LF);
    assert SplitLF(cancelled + [LF]) == [x, TICKS + [97], none];
    SplitPush(cancelled + [LF], 121);
    assert none + [121] == [121];
    assert CLOSER_AFTER_CRLF + REST_OF_LINE == cancelled + [LF] + [121];
  }

  lemma WitnessOpened(fence: OpenFence, more: Source)
    requires fence.start == 0 && fence.contentStart == 4 && fence.marker == BACKTICK && fence.count == 3
    ensures Opened(fence, OPENING + more)
  {
    var source := OPENING + more;
    assert source[0..3] == TICKS && source[0..4] == OPENING;
    assert LeadingBlanks(OPENING) == 0 && OPENING[0..] == OPENING;
    LeadingRunIs(OPENING, BACKTICK, 3);
  }

  lemma WitnessScanned()
    ensures Scanned(AT_CLOSER, OPENING + CLOSER_AFTER_CRLF)
    ensures Scanned(AFTER_REST, OPENING + CLOSER_AFTER_CRLF + REST_OF_LINE)
    ensures LosesCR(AT_CLOSER, OPENING + CLOSER_AFTER_CRLF, AFTER_REST)
  {
    hide SplitLF, Opened;
    WitnessSplits();
    WitnessOpened(AT_CLOSER, CLOSER_AFTER_CRLF);
    WitnessOpened(AFTER_REST, CLOSER_AFTER_CRLF + REST_OF_LINE);
    assert OPENING + CLOSER_AFTER_CRLF + REST_OF_LINE == OPENING + (CLOSER_AFTER_CRLF + REST_OF_LINE);
    assert ScanLine(TICKS, BACKTICK, 3) == Marker(3) by {
      ScanRun(0, 3, BACKTICK, 3);
      assert TICKS == Repeat(BACKTICK, 3);
    }
    assert ScanLine([] + [121], BACKTICK, 3) == Content by {
      ScanPush([], 121, BACKTICK, 3);
    }
    assert [] + [121] == [121];
  }

  lemma WitnessNotClosed()
    ensures NoClosingEnd(AT_CLOSER, OPENING + CLOSER_AFTER_CRLF + REST_OF_LINE, 10)
  {
    hide SplitLF;
    var whole := OPENING + CLOSER_AFTER_CRLF + REST_OF_LINE;
    WitnessSplits();
    var cancelled := CLOSER_AFTER_CRLF + [97];
    assert whole[4..11] == cancelled;
    SplitPush(CLOSER_AFTER_CRLF, 97);
    ScanPush(TICKS, 97, BACKTICK, 3);
    assert ScanLine(TICKS + [97], BACKTICK, 3) == Content by {
      ScanRun(0, 3, BACKTICK, 3);
      assert TICKS == Repeat(BACKTICK, 3);
    }
  }

  lemma SplitAfterLF(piece: Source)
    requires LF !in piece
    ensures SplitLF(piece + [LF]) == [piece, []]
  {
    hide SplitLF;
    EmptySplit();
    SplitWithoutLFs([], piece);
    assert [] + piece == piece;
    SplitPush(piece, LF);
  }

  lemma {:induction false} SplitWithoutLFs(s: Source, more: Source)
    requires LF !in more
    ensures SplitLF(s + more) == SplitLF(s)[..|SplitLF(s)| - 1] + [LastPiece(s) + more]
    decreases |more|
  {
    hide SplitLF;
    var before, last := SplitLF(s)[..|SplitLF(s)| - 1], LastPiece(s);
    if more == [] {
      assert s + more == s && last + more == last;
      assert SplitLF(s) == before + [last];
    } else {
      var init, b := more[..|more| - 1], more[|more| - 1];
      SplitWithoutLFs(s, init);
      assert s + more == (s + init) + [b] && last + more == (last + init) + [b];
      SplitPush(s + init, b);
    }
  }
}
