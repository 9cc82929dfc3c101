/**
 Closing fences. The batch parser decides with `ClosingFence` over a whole line; the streaming
 parser decides with the `FenceLine` automaton, one byte at a time. Both are tied to one
 declarative shape: up to three spaces, a long enough run of the marker, trailing spaces.
 */
module FenceLines {
  import opened Bytes

  datatype FenceLine = Indent(columns: nat) | Marker(run: nat) | Trailing | Content
  {
    function Feed(b: byte, marker: byte, count: nat): FenceLine {
      match this
      case Indent(columns) =>
        if b == SPACE && columns < 3 then Indent(columns + 1)
        else if b == marker then Marker(1)
        else Content
      case Marker(run) =>
        if b == marker then Marker(run + 1)
        else if b == SPACE && run >= count then Trailing
        else Content
      case Trailing => if b == SPACE then Trailing else Content
      case Content => Content
    }

    predicate Closes(count: nat) {
      match this
      case Marker(run) => run >= count
      case Trailing => true
      case _ => false
    }
  }

  /** Feeding every byte of `line` in order. */
  function Scan(state: FenceLine, line: Source, marker: byte, count: nat): FenceLine {
    if line == [] then state
    else Scan(state, line[..|line| - 1], marker, count).Feed(line[|line| - 1], marker, count)
  }

  function ScanLine(line: Source, marker: byte, count: nat): FenceLine {
    Scan(Indent(0), line, marker, count)
  }

  ghost predicate HasCloserShape(line: Source, marker: byte, count: nat, indent: nat, run: nat, trail: nat) {
    && indent <= 3 && run >= 1 && run >= count
    && line == Repeat(SPACE, indent) + Repeat(marker, run) + Repeat(SPACE, trail)
  }

  /** A closing fence in the code's own reading of CommonMark 0.31.2, section 4.5. */
  ghost predicate IsCloser(line: Source, marker: byte, count: nat) {
    exists indent: nat, run: nat, trail: nat :: HasCloserShape(line, marker, count, indent, run, trail)
  }

  /** A byte a fence can be made of: none of those the scanners treat as layout. */
  predicate IsMarkerByte(marker: byte) {
    marker != SPACE && marker != TAB && marker != CR && marker != LF
  }

  /** The length of `s` up to its first carriage return. */
  function BeforeCR(s: Source): (r: nat)
    ensures r <= |s| && CR !in s[..r] && (r < |s| ==> s[r] == CR)
  {
    if s == [] || s[0] == CR then 0 else 1 + BeforeCR(s[1..])
  }

  /** What `closing_fence` decides, for any marker byte: spaces, the whole run of markers, spaces, and then
      nothing or a carriage return. */
  predicate ClosesLine(line: Source, marker: byte, count: nat) {
    var indent := LeadingRun(line, SPACE);
    var run := LeadingRun(line[indent..], marker);
    var trail := LeadingRun(line[indent + run..], SPACE);
    && marker != TAB && indent <= 3 && run > 0 && run >= count
    && (indent + run + trail == |line| || line[indent + run + trail] == CR)
  }

  /** What the automaton decides once a carriage return or the end of the line is reached. */
  predicate ScanCloses(line: Source, marker: byte, count: nat) {
    ScanLine(line[..BeforeCR(line)], marker, count).Closes(count)
  }

  // ---- the automaton -----------------------------------------------------

  lemma ScanPush(line: Source, b: byte, marker: byte, count: nat)
    ensures ScanLine(line + [b], marker, count) == ScanLine(line, marker, count).Feed(b, marker, count)
  {
    assert (line + [b])[..|line|] == line;
  }

  /** Chunk boundaries inside a line do not matter. */
  lemma {:induction false} ScanSplit(state: FenceLine, a: Source, b: Source, marker: byte, count: nat)
    ensures Scan(state, a + b, marker, count) == Scan(Scan(state, a, marker, count), b, marker, count)
    decreases |b|
  {
    if b == [] {
      assert a + b == a;
    } else {
      assert (a + b)[..|a + b| - 1] == a + b[..|b| - 1];
      ScanSplit(state, a, b[..|b| - 1], marker, count);
    }
  }

  lemma {:induction false} ContentSticks(line: Source, k: nat, marker: byte, count: nat)
    requires k <= |line| && ScanLine(line[..k], marker, count) == Content
    ensures ScanLine(line, marker, count) == Content
  {
    if k == |line| {
      assert line[..k] == line;
    } else {
      assert line[..|line| - 1][..k] == line[..k];
      ContentSticks(line[..|line| - 1], k, marker, count);
    }
  }

  lemma {:induction false} ScanSpaces(n: nat, marker: byte, count: nat)
    requires n <= 3
    ensures ScanLine(Repeat(SPACE, n), marker, count) == Indent(n)
  {
    if n > 0 {
      assert Repeat(SPACE, n)[..n - 1] == Repeat(SPACE, n - 1);
      ScanSpaces(n - 1, marker, count);
    }
  }

  lemma {:induction false} ScanRun(indent: nat, n: nat, marker: byte, count: nat)
    requires n > 0 && marker != SPACE
    ensures Scan(Indent(indent), Repeat(marker, n), marker, count) == Marker(n)
  {
    var rest := Repeat(marker, n)[..n - 1];
    assert rest == Repeat(marker, n - 1);
    if n > 1 {
      ScanRun(indent, n - 1, marker, count);
    } else {
      assert rest == [];
    }
  }

  lemma {:induction false} ScanTrail(run: nat, n: nat, marker: byte, count: nat)
    requires run >= count && marker != SPACE
    ensures Scan(Marker(run), Repeat(SPACE, n), marker, count) == if n == 0 then Marker(run) else Trailing
  {
    if n > 0 {
      assert Repeat(SPACE, n)[..n - 1] == Repeat(SPACE, n - 1);
      ScanTrail(run, n - 1, marker, count);
    }
  }

  /** What each state remembers about the bytes fed so far. */
  ghost predicate Remembers(state: FenceLine, line: Source, marker: byte, count: nat) {
    match state
    case Indent(columns) => columns <= 3 && line == Repeat(SPACE, columns)
    case Marker(run) =>
      run >= 1 && exists indent: nat :: indent <= 3 && line == Repeat(SPACE, indent) + Repeat(marker, run)
    case Trailing => IsCloser(line, marker, count)
    case Content => true
  }

  lemma {:induction false} ScanRemembers(line: Source, marker: byte, count: nat)
    requires marker != SPACE
    ensures Remembers(ScanLine(line, marker, count), line, marker, count)
  {
    if line != [] {
      var init, b := line[..|line| - 1], line[|line| - 1];
      assert line == init + [b];
      ScanRemembers(init, marker, count);
      match ScanLine(init, marker, count)
      case Indent(columns) =>
        if b == SPACE && columns < 3 {
          assert line == Repeat(SPACE, columns + 1);
        } else if b == marker {
          assert line == Repeat(SPACE, columns) + Repeat(marker, 1);
        }
      case Marker(run) =>
        var indent: nat :| indent <= 3 && init == Repeat(SPACE, indent) + Repeat(marker, run);
        if b == marker {
          assert line == Repeat(SPACE, indent) + Repeat(marker, run + 1);
        } else if b == SPACE && run >= count {
          assert line == Repeat(SPACE, indent) + Repeat(marker, run) + Repeat(SPACE, 1);
          assert HasCloserShape(line, marker, count, indent, run, 1);
        }
      case Trailing =>
        var indent: nat, run: nat, trail: nat :| HasCloserShape(init, marker, count, indent, run, trail);
        if b == SPACE {
          assert line == Repeat(SPACE, indent) + Repeat(marker, run) + Repeat(SPACE, trail + 1);
          assert HasCloserShape(line, marker, count, indent, run, trail + 1);
        }
      case Content =>
    }
  }

  /** The automaton accepts a line exactly when the line has the shape of a closing fence. */
  lemma ScanClosesIffCloser(line: Source, marker: byte, count: nat)
    requires marker != SPACE
    ensures ScanLine(line, marker, count).Closes(count) <==> IsCloser(line, marker, count)
  {
    ScanRemembers(line, marker, count);
    var state := ScanLine(line, marker, count);
    if state.Marker? && state.run >= count {
      var indent: nat :| indent <= 3 && line == Repeat(SPACE, indent) + Repeat(marker, state.run);
      assert HasCloserShape(line, marker, count, indent, state.run, 0);
    }
    if IsCloser(line, marker, count) {
      var indent: nat, run: nat, trail: nat :| HasCloserShape(line, marker, count, indent, run, trail);
      CloserScans(indent, run, trail, marker, count);
    }
  }

  lemma CloserScans(indent: nat, run: nat, trail: nat, marker: byte, count: nat)
    requires indent <= 3 && run >= 1 && run >= count && marker != SPACE
    ensures ScanLine(Repeat(SPACE, indent) + Repeat(marker, run) + Repeat(SPACE, trail), marker, count).Closes(count)
  {
    ScanSpaces(indent, marker, count);
    ScanRun(indent, run, marker, count);
    ScanTrail(run, trail, marker, count);
    ScanSplit(Indent(0), Repeat(SPACE, indent), Repeat(marker, run), marker, count);
    ScanSplit(Indent(0), Repeat(SPACE, indent) + Repeat(marker, run), Repeat(SPACE, trail), marker, count);
  }

  /** Fed in two pieces cut anywhere, the automaton agrees with the batch scanner on a line that
      no carriage return cuts short. */
  lemma ChunkedScanAgreesWithBatch(a: Source, b: Source, marker: byte, count: nat)
    requires CR !in a + b && marker != SPACE && marker != TAB
    ensures Scan(ScanLine(a, marker, count), b, marker, count).Closes(count) <==> ClosesLine(a + b, marker, count)
  {
    hide ClosesLine, Scan, IsCloser;
    ScanSplit(Indent(0), a, b, marker, count);
    ScanClosesIffCloser(a + b, marker, count);
    ClosesLineIffShape(a + b, marker, count);
    CloserIsFence(a + b, marker, count);
  }

  /** A tab as a marker, which no opening line has, is where the two differ. */
  lemma TabMarkerDiffers()
    ensures ScanLine([TAB], TAB, 1).Closes(1) && !ClosesLine([TAB], TAB, 1)
  {
    ScanPush([], TAB, TAB, 1);
    assert [] + [TAB] == [TAB];
  }

  // ---- the batch scanner -------------------------------------------------

  function LeadingRun(s: Source, b: byte): (r: nat)
    ensures r <= |s| && (forall i :: 0 <= i < r ==> s[i] == b) && (r < |s| ==> s[r] != b)
  {
    if s == [] || s[0] != b then 0 else 1 + LeadingRun(s[1..], b)
  }

  lemma NoCRBefore(line: Source, k: nat)
    requires k <= |line| && CR !in line[..k]
    ensures forall i :: 0 <= i < k ==> line[i] != CR
    ensures k <= BeforeCR(line)
  {
    PrefixWithout(line, k, CR);
  }

  /** `line` is cut at a byte that ends every hope of a closer. */
  lemma ContentBeforeCR(line: Source, k: nat, marker: byte, count: nat)
    requires k < |line| && CR !in line[..k + 1]
    requires ScanLine(line[..k], marker, count).Feed(line[k], marker, count) == Content
    ensures !ScanCloses(line, marker, count)
  {
    var cut := line[..BeforeCR(line)];
    NoCRBefore(line, k + 1);
    assert cut[..k + 1] == line[..k + 1] && line[..k + 1][..k] == line[..k];
    ContentSticks(cut, k + 1, marker, count);
  }

  lemma CutAt(line: Source, k: nat)
    requires k <= |line| && CR !in line[..k] && (k == |line| || line[k] == CR)
    ensures BeforeCR(line) == k
  {
    NoCRBefore(line, k);
    NoCRBefore(line, BeforeCR(line));
  }

  /** Up to `indent` spaces and then the whole run of markers. */
  lemma RunScanned(line: Source, indent: nat, run: nat, marker: byte, count: nat)
    requires indent <= 3 && indent + run <= |line| && IsMarkerByte(marker) && line[..indent] == Repeat(SPACE, indent)
    requires line[indent..][..run] == Repeat(marker, run) && ScanLine(line[..indent], marker, count) == Indent(indent)
    ensures line[..indent + run] == Repeat(SPACE, indent) + Repeat(marker, run) && CR !in line[..indent + run]
    ensures run < |line[indent..]| ==> line[indent + run] == line[indent..][run]
    ensures ScanLine(line[..indent + run], marker, count) == if run == 0 then Indent(indent) else Marker(run)
  {
    hide Scan;
    assert line[..indent + run] == line[..indent] + line[indent..][..run];
    if run > 0 {
      ScanSplit(Indent(0), Repeat(SPACE, indent), Repeat(marker, run), marker, count);
      ScanRun(indent, run, marker, count);
    } else {
      assert line[..indent + run] == line[..indent];
    }
  }

  /** A run that is missing or too short never becomes a closer. */
  lemma NotACloser(line: Source, k: nat, marker: byte, count: nat)
    requires k <= |line| && CR !in line[..k] && IsMarkerByte(marker)
    requires var state := ScanLine(line[..k], marker, count);
             || (state.Indent? && (k < |line| ==> line[k] != SPACE && line[k] != marker))
             || (state.Marker? && state.run < count && (k < |line| ==> line[k] != marker))
    ensures !ScanCloses(line, marker, count)
  {
    if k == |line| || line[k] == CR {
      CutAt(line, k);
    } else {
      SlicePush(line, 0, k);
      ContentBeforeCR(line, k, marker, count);
    }
  }

  lemma {:induction false} LeadingRunIs(s: Source, b: byte, n: nat)
    requires n <= |s| && (forall i :: 0 <= i < n ==> s[i] == b) && (n < |s| ==> s[n] != b)
    ensures LeadingRun(s, b) == n
  {
    if n > 0 {
      LeadingRunIs(s[1..], b, n - 1);
    }
  }

  /** The shape of a closing fence at the start of `line`, for any marker byte. */
  ghost predicate HasFenceShape(line: Source, marker: byte, count: nat, indent: nat, run: nat, trail: nat) {
    var end := indent + run + trail;
    && marker != SPACE && marker != TAB && indent <= 3 && run >= 1 && run >= count && end <= |line|
    && line[..end] == Repeat(SPACE, indent) + Repeat(marker, run) + Repeat(SPACE, trail)
    && (indent + run < |line| ==> line[indent + run] != marker)
    && (end < |line| ==> line[end] == CR)
  }

  ghost predicate IsFence(line: Source, marker: byte, count: nat) {
    exists indent: nat, run: nat, trail: nat :: HasFenceShape(line, marker, count, indent, run, trail)
  }

  lemma ClosesLineIffShape(line: Source, marker: byte, count: nat)
    ensures ClosesLine(line, marker, count) <==> IsFence(line, marker, count)
  {
    if ClosesLine(line, marker, count) {
      var indent := LeadingRun(line, SPACE);
      var run := LeadingRun(line[indent..], marker);
      var trail := LeadingRun(line[indent + run..], SPACE);
      assert line[..indent] == Repeat(SPACE, indent) && line[indent..][..run] == Repeat(marker, run);
      assert line[indent + run..][..trail] == Repeat(SPACE, trail);
      ShapeBytes(line, marker, indent, run, trail);
      assert HasFenceShape(line, marker, count, indent, run, trail);
    }
    if IsFence(line, marker, count) {
      var indent: nat, run: nat, trail: nat :| HasFenceShape(line, marker, count, indent, run, trail);
      ShapeRuns(line, marker, count, indent, run, trail);
    }
  }

  lemma ShapeBytes(line: Source, marker: byte, indent: nat, run: nat, trail: nat)
    requires indent + run + trail <= |line| && line[..indent] == Repeat(SPACE, indent)
    requires line[indent..][..run] == Repeat(marker, run) && line[indent + run..][..trail] == Repeat(SPACE, trail)
    ensures line[..indent + run + trail] == Repeat(SPACE, indent) + Repeat(marker, run) + Repeat(SPACE, trail)
  {
    hide Repeat;
    assert line[..indent + run + trail] == line[..indent] + line[indent..][..run] + line[indent + run..][..trail];
  }

  lemma RunAtStart(line: Source, at: nat, n: nat, b: byte, cut: Source, end: nat)
    requires at + n <= end <= |line| && cut == line[..end] && forall j :: at <= j < at + n ==> cut[j] == b
    requires at + n < |line| ==> line[at + n] != b
    ensures LeadingRun(line[at..], b) == n
  {
    hide LeadingRun;
    forall j | 0 <= j < n
      ensures line[at..][j] == b
    {
      assert line[at..][j] == cut[at + j];
    }
    LeadingRunIs(line[at..], b, n);
  }

  lemma ShapeRuns(line: Source, marker: byte, count: nat, indent: nat, run: nat, trail: nat)
    requires HasFenceShape(line, marker, count, indent, run, trail)
    ensures ClosesLine(line, marker, count)
  {
    hide LeadingRun;
    var end := indent + run + trail;
    assert line[indent] == line[..end][indent] == marker;
    RunAtStart(line, 0, indent, SPACE, line[..end], end);
    assert line[0..] == line;
    RunAtStart(line, indent, run, marker, line[..end], end);
    RunAtStart(line, indent + run, trail, SPACE, line[..end], end);
  }

  /** Where nothing follows a carriage return, and the marker is not one, that is the shape the automaton accepts. */
  lemma CloserIsFence(line: Source, marker: byte, count: nat)
    requires CR !in line && marker != SPACE && marker != TAB
    ensures IsCloser(line, marker, count) <==> IsFence(line, marker, count)
  {
    if IsCloser(line, marker, count) {
      var indent: nat, run: nat, trail: nat :| HasCloserShape(line, marker, count, indent, run, trail);
      assert line[..|line|] == line;
      assert HasFenceShape(line, marker, count, indent, run, trail);
    }
    if IsFence(line, marker, count) {
      var indent: nat, run: nat, trail: nat :| HasFenceShape(line, marker, count, indent, run, trail);
      assert line[..|line|] == line;
      assert HasCloserShape(line, marker, count, indent, run, trail);
    }
  }

  /** For the bytes fences are made of, the automaton stopped at the first carriage return decides the same. */
  lemma ClosesLineIsScan(line: Source, marker: byte, count: nat)
    requires IsMarkerByte(marker)
    ensures ClosesLine(line, marker, count) <==> ScanCloses(line, marker, count)
  {
    hide ScanLine, BeforeCR, LeadingRun, ScanCloses, Repeat;
    var indent := LeadingRun(line, SPACE);
    if indent > 3 {
      TooDeep(line, marker, count);
    } else {
      var run := LeadingRun(line[indent..], marker);
      RunsScanned(line, indent, run, marker, count);
      if run == 0 || run < count {
        NotACloser(line, indent + run, marker, count);
      } else {
        TrailScanned(line, indent + run, run, marker, count);
      }
    }
  }

  lemma TooDeep(line: Source, marker: byte, count: nat)
    requires IsMarkerByte(marker) && LeadingRun(line, SPACE) > 3
    ensures !ScanCloses(line, marker, count)
  {
    hide Scan, BeforeCR, LeadingRun;
    ScanSpaces(3, marker, count);
    assert line[..3] == Repeat(SPACE, 3);
    ContentBeforeCR(line, 3, marker, count);
  }

  lemma RunsScanned(line: Source, indent: nat, run: nat, marker: byte, count: nat)
    requires indent == LeadingRun(line, SPACE) <= 3 && run == LeadingRun(line[indent..], marker) && IsMarkerByte(marker)
    ensures CR !in line[..indent + run] && ScanLine(line[..indent + run], marker, count) == if run == 0
            then Indent(indent) else Marker(run)
    ensures indent + run < |line| ==> line[indent + run] != marker && (run == 0 ==> line[indent] != SPACE)
  {
    hide Scan, LeadingRun;
    assert line[..indent] == Repeat(SPACE, indent) && line[indent..][..run] == Repeat(marker, run);
    ScanSpaces(indent, marker, count);
    RunScanned(line, indent, run, marker, count);
    assert run < |line[indent..]| ==> line[indent..][run] == line[indent + run];
  }

  /** The spaces behind a long enough run decide. */
  lemma TrailScanned(line: Source, after: nat, run: nat, marker: byte, count: nat)
    requires 0 < after <= |line| && run >= count && IsMarkerByte(marker) && CR !in line[..after]
    requires ScanLine(line[..after], marker, count) == Marker(run) && (after < |line| ==> line[after] != marker)
    ensures var k := after + LeadingRun(line[after..], SPACE);
            ScanCloses(line, marker, count) <==> k == |line| || line[k] == CR
  {
    hide Scan, BeforeCR, LeadingRun;
    var trail := LeadingRun(line[after..], SPACE);
    var k := after + trail;
    assert line[..k] == line[..after] + Repeat(SPACE, trail);
    ScanSplit(Indent(0), line[..after], Repeat(SPACE, trail), marker, count);
    ScanTrail(run, trail, marker, count);
    if k == |line| || line[k] == CR {
      CutAt(line, k);
    } else {
      assert trail < |line[after..]| && line[after..][trail] == line[k];
      SlicePush(line, 0, k);
      ContentBeforeCR(line, k, marker, count);
    }
  }

  method ClosingFence(line: Source, marker: byte, count: nat) returns (closes: bool)
    ensures closes <==> ClosesLine(line, marker, count)
    ensures closes <==> IsFence(line, marker, count)
    ensures IsMarkerByte(marker) ==> (closes <==> IsCloser(line[..BeforeCR(line)], marker, count))
  {
    hide Scan, IsCloser, BeforeCR, IsFence, LeadingRun;
    ClosesLineIffShape(line, marker, count);
    if IsMarkerByte(marker) {
      ClosesLineIsScan(line, marker, count);
      ScanClosesIffCloser(line[..BeforeCR(line)], marker, count);
    }
    var cursor, tooDeep := SkipIndent(line, marker, count);
    if tooDeep {
      return false;
    }
    var run := LeadingRun(line[cursor..], marker);
    if run == 0 || run < count {
      return false;
    }
    cursor := SkipSpaces(line, cursor + run);
    return cursor == |line| || line[cursor] == CR;
  }

  method SkipSpaces(line: Source, after: nat) returns (cursor: nat)
    requires after <= |line|
    ensures cursor == after + LeadingRun(line[after..], SPACE)
  {
    hide LeadingRun;
    cursor := after;
    while cursor < |line| && line[cursor] == SPACE
      invariant after <= cursor <= |line| && forall j :: after <= j < cursor ==> line[j] == SPACE
    {
      cursor := cursor + 1;
    }
    LeadingRunIs(line[after..], SPACE, cursor - after);
  }

  /** Passes over the indentation. Four columns of it, and so a tab, are too many. */
  method SkipIndent(line: Source, marker: byte, count: nat) returns (cursor: nat, tooDeep: bool)
    ensures tooDeep ==> !ClosesLine(line, marker, count)
    ensures !tooDeep ==>
            cursor == LeadingRun(line, SPACE) <= 3
            && (marker == TAB ==> LeadingRun(line[cursor..], marker) == 0)
  {
    var columns := 0;
    cursor, tooDeep := 0, false;
    while cursor < |line| && (line[cursor] == SPACE || line[cursor] == TAB)
      invariant cursor <= |line| && columns == cursor <= 3
      invariant forall j :: 0 <= j < cursor ==> line[j] == SPACE
    {
      columns := if line[cursor] == SPACE then columns + 1 else (columns / 4 + 1) * 4;
      if columns >= 4 {
        if line[cursor] == TAB {
          LeadingRunIs(line, SPACE, cursor);
        }
        return cursor, true;
      }
      cursor := cursor + 1;
    }
    LeadingRunIs(line, SPACE, cursor);
  }

  // ---- the fence a review excerpt is wrapped in --------------------------

  /** `n` backticks in a row somewhere in `text`. */
  ghost predicate HasRun(text: Source, n: nat) {
    exists i: nat :: RunAt(text, i, n)
  }

  ghost predicate RunAt(text: Source, i: nat, n: nat) {
    i + n <= |text| && text[i..i + n] == Repeat(BACKTICK, n)
  }

  lemma RunBytes(text: Source, i: nat, n: nat)
    requires RunAt(text, i, n)
    ensures forall j :: i <= j < i + n ==> text[j] == BACKTICK
  {
    forall j | i <= j < i + n
      ensures text[j] == BACKTICK
    {
      assert text[j] == text[i..i + n][j - i] == Repeat(BACKTICK, n)[j - i];
    }
  }

  lemma ExtendRun(text: Source, byte: byte, n: nat)
    requires HasRun(text, n)
    ensures HasRun(text + [byte], n)
  {
    var i: nat :| RunAt(text, i, n);
    assert (text + [byte])[i..i + n] == text[i..i + n];
    assert RunAt(text + [byte], i, n);
  }

  ghost predicate NoRunBeyond(text: Source, longest: nat) {
    forall n: nat :: HasRun(text, n) ==> n <= longest
  }

  lemma NoBytesNoRun(text: Source)
    ensures HasRun(text[..0], 0) && NoRunBeyond(text[..0], 0)
  {
    assert RunAt(text[..0], 0, 0);
  }

  /** The shortest fence of three or more backticks that is longer than every run in `text`. */
  method FenceFor(text: Source) returns (fence: Source)
    ensures |fence| >= 3 && fence == Repeat(BACKTICK, |fence|)
    ensures !HasRun(text, |fence|)
    ensures |fence| == 3 || HasRun(text, |fence| - 1)
  {
    hide RunAt;
    var longest, run := 0, 0;
    NoBytesNoRun(text);
    for i := 0 to |text|
      invariant run <= longest && run <= i && text[i - run..i] == Repeat(BACKTICK, run)
      invariant run < i ==> text[i - run - 1] != BACKTICK
      invariant HasRun(text[..i], longest)
      invariant NoRunBeyond(text[..i], longest)
    {
      SlicePush(text, 0, i);
      ExtendRun(text[..i], text[i], longest);
      if text[i] == BACKTICK {
        CurrentRun(text, i, run);
        run := run + 1;
        longest := Max(longest, run);
      } else {
        run := 0;
      }
      hide HasRun, Repeat;
      NoLongerRun(text, i + 1, run, longest);
    }
    assert text[..|text|] == text;
    fence := Repeat(BACKTICK, Max(longest, 2) + 1);
  }

  /** One more backtick makes the current run longer. */
  lemma CurrentRun(text: Source, i: nat, run: nat)
    requires run <= i < |text| && text[i - run..i] == Repeat(BACKTICK, run) && text[i] == BACKTICK
    ensures text[i - run..i + 1] == Repeat(BACKTICK, run + 1) && HasRun(text[..i + 1], run + 1)
  {
    SlicePush(text, i - run, i);
    assert text[..i + 1][i - run..i - run + (run + 1)] == text[i - run..i + 1];
    assert RunAt(text[..i + 1], i - run, run + 1);
  }

  /** A run inside the first `i` bytes either ends before byte `i - 1` or is part of the current run. */
  lemma LastRun(text: Source, i: nat, n: nat, run: nat)
    requires 0 < i <= |text| && run <= i && HasRun(text[..i], n)
    requires run < i ==> text[i - run - 1] != BACKTICK
    ensures n <= run || HasRun(text[..i - 1], n)
  {
    var k: nat :| RunAt(text[..i], k, n);
    if k + n < i {
      assert text[..i - 1][k..k + n] == text[..i][k..k + n];
      assert RunAt(text[..i - 1], k, n);
    } else {
      RunBytes(text[..i], k, n);
    }
  }

  lemma CloserHoldsRun(text: Source, from: nat, line: Source, count: nat)
    requires from + |line| <= |text| && line == text[from..from + |line|]
    requires count > 0 && IsCloser(line, BACKTICK, count)
    ensures HasRun(text, count)
  {
    var indent: nat, run: nat, trail: nat :| HasCloserShape(line, BACKTICK, count, indent, run, trail);
    SubSlice(text, from, from + |line|, indent, count);
    assert line[indent..indent + count] == Repeat(BACKTICK, run)[..count] == Repeat(BACKTICK, count);
    assert RunAt(text, from + indent, count);
  }

  lemma NoLongerRun(text: Source, i: nat, run: nat, longest: nat)
    requires 0 < i <= |text| && run <= i && run <= longest && NoRunBeyond(text[..i - 1], longest)
    requires run < i ==> text[i - run - 1] != BACKTICK
    ensures NoRunBeyond(text[..i], longest)
  {
    hide HasRun;
    forall n: nat | HasRun(text[..i], n)
      ensures n <= longest
    {
      LastRun(text, i, n, run);
    }
  }

  /** No line of the excerpt, nor any other stretch of it, closes the fence chosen for it. */
  lemma ChosenFenceNeverCloses(text: Source, from: nat, to: nat, count: nat)
    requires from <= to <= |text| && count > 0 && !HasRun(text, count)
    ensures !ClosesLine(text[from..to], BACKTICK, count)
  {
    hide ScanLine, HasRun, IsCloser, ClosesLine;
    ClosesLineIsScan(text[from..to], BACKTICK, count);
    var line := text[from..from + BeforeCR(text[from..to])];
    assert line == text[from..to][..BeforeCR(text[from..to])];
    ScanClosesIffCloser(line, BACKTICK, count);
    if IsCloser(line, BACKTICK, count) {
      CloserHoldsRun(text, from, line, count);
    }
  }
}
