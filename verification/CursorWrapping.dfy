/**
 Wrapping a draft to a width while keeping track of where its cursor goes.
 */
module CursorWrapping {
  import opened Bytes

  /** A character with its width on screen and its length in the text. */
  datatype Glyph = Glyph(symbol: char, width: nat, bytes: nat)

  type Text = seq<Glyph>

  /** Why a line ended: no room for the next character, a line feed, or room wanted for the cursor. */
  datatype Break = Soft | Hard(feed: Glyph) | ForCursor

  function WidthOf(line: Text): nat {
    if line == [] then 0 else WidthOf(line[..|line| - 1]) + line[|line| - 1].width
  }

  /** The byte offset after a text: that of a cursor behind it. */
  function LengthOf(text: Text): nat {
    if text == [] then 0 else LengthOf(text[..|text| - 1]) + text[|text| - 1].bytes
  }

  function FeedOf(b: Break): Text {
    if b.Hard? then [b.feed] else []
  }

  /** Lines put back together with the line feeds that ended them. */
  function Joined(lines: seq<Text>, breaks: seq<Break>): Text
    requires |lines| == |breaks|
  {
    if lines == [] then []
    else
      var n := |lines| - 1;
      Joined(lines[..n], breaks[..n]) + lines[n] + FeedOf(breaks[n])
  }

  /** Line `j`, where the line being filled counts as the last. */
  function LineAt(lines: seq<Text>, line: Text, j: nat): Text
    requires j <= |lines|
  {
    if j < |lines| then lines[j] else line
  }

  /** A break is called for by what stands on either side of it. */
  ghost predicate CalledFor(b: Break, line: Text, next: Text, width: nat) {
    match b
    case Soft => next != [] && WidthOf(line) > 0 && WidthOf(line) + next[0].width > width
    case Hard(feed) => feed.symbol == '\n'
    case ForCursor => next == [] && WidthOf(line) == width
  }

  ghost predicate AllCalledFor(lines: seq<Text>, breaks: seq<Break>, line: Text, width: nat)
    requires |lines| == |breaks|
  {
    forall j :: 0 <= j < |lines| ==> CalledFor(breaks[j], lines[j], LineAt(lines, line, j + 1), width)
  }

  ghost predicate NoFeeds(text: Text) {
    forall i :: 0 <= i < |text| ==> text[i].symbol != '\n'
  }

  ghost predicate AllFit(text: Text, width: nat) {
    forall i :: 0 <= i < |text| ==> text[i].width <= width
  }

  /** The cursor is on line `at.0`, behind the first `p` characters of it, and what comes before it is
      exactly the text before index `i`. */
  ghost predicate Behind(lines: seq<Text>, breaks: seq<Break>, line: Text, at: (nat, nat), p: nat, text: Text, i: nat)
    requires |lines| == |breaks|
  {
    && at.0 <= |lines| && i <= |text| && p <= |LineAt(lines, line, at.0)|
    && at.1 == WidthOf(LineAt(lines, line, at.0)[..p])
    && Joined(lines[..at.0], breaks[..at.0]) + LineAt(lines, line, at.0)[..p] == text[..i]
  }

  ghost predicate IsBehind(lines: seq<Text>, breaks: seq<Break>, line: Text, at: (nat, nat), text: Text, cursor: nat)
    requires |lines| == |breaks|
  {
    exists p: nat, i: nat :: Behind(lines, breaks, line, at, p, text, i) && LengthOf(text[..i]) == cursor
  }

  lemma JoinedPush(lines: seq<Text>, breaks: seq<Break>, line: Text, b: Break)
    requires |lines| == |breaks|
    ensures Joined(lines + [line], breaks + [b]) == Joined(lines, breaks) + line + FeedOf(b)
  {
    assert (lines + [line])[..|lines|] == lines && (breaks + [b])[..|breaks|] == breaks;
  }

  lemma WidthPush(line: Text, glyph: Glyph)
    ensures WidthOf(line + [glyph]) == WidthOf(line) + glyph.width
  {
    assert (line + [glyph])[..|line|] == line;
  }

  /** Ending the line moves nothing that was placed. */
  lemma BehindAfterBreak(lines: seq<Text>, breaks: seq<Break>, line: Text, b: Break, at: (nat, nat), text: Text,
                         cursor: nat)
    requires |lines| == |breaks| && IsBehind(lines, breaks, line, at, text, cursor)
    ensures IsBehind(lines + [line], breaks + [b], [], at, text, cursor)
  {
    var p: nat, i: nat :| Behind(lines, breaks, line, at, p, text, i) && LengthOf(text[..i]) == cursor;
    assert (lines + [line])[..at.0] == lines[..at.0] && (breaks + [b])[..at.0] == breaks[..at.0];
    assert LineAt(lines + [line], [], at.0) == LineAt(lines, line, at.0);
    assert Behind(lines + [line], breaks + [b], [], at, p, text, i);
  }

  lemma BehindAfterPush(lines: seq<Text>, breaks: seq<Break>, line: Text, glyph: Glyph, at: (nat, nat), text: Text,
                        cursor: nat)
    requires |lines| == |breaks| && IsBehind(lines, breaks, line, at, text, cursor)
    ensures IsBehind(lines, breaks, line + [glyph], at, text, cursor)
  {
    var p: nat, i: nat :| Behind(lines, breaks, line, at, p, text, i) && LengthOf(text[..i]) == cursor;
    var before, after := LineAt(lines, line, at.0), LineAt(lines, line + [glyph], at.0);
    assert after[..p] == before[..p];
    assert Behind(lines, breaks, line + [glyph], at, p, text, i);
  }

  /** The place after everything so far. */
  lemma BehindHere(lines: seq<Text>, breaks: seq<Break>, line: Text, text: Text, i: nat)
    requires |lines| == |breaks| && i <= |text| && Joined(lines, breaks) + line == text[..i]
    ensures IsBehind(lines, breaks, line, (|lines|, WidthOf(line)), text, LengthOf(text[..i]))
  {
    assert lines[..|lines|] == lines && breaks[..|breaks|] == breaks && line[..|line|] == line;
    assert Behind(lines, breaks, line, (|lines|, WidthOf(line)), |line|, text, i);
  }

  lemma BrokenFor(lines: seq<Text>, breaks: seq<Break>, line: Text, b: Break, next: Text, width: nat)
    requires |lines| == |breaks| && AllCalledFor(lines, breaks, line, width) && CalledFor(b, line, next, width)
    ensures AllCalledFor(lines + [line], breaks + [b], next, width)
  {
    hide CalledFor;
    var all := lines + [line];
    forall j | 0 <= j < |all|
      ensures CalledFor((breaks + [b])[j], all[j], LineAt(all, next, j + 1), width)
    {
      if j < |lines| {
        assert LineAt(all, next, j + 1) == LineAt(lines, line, j + 1);
      }
    }
  }

  lemma StillCalledFor(lines: seq<Text>, breaks: seq<Break>, line: Text, glyph: Glyph, width: nat)
    requires |lines| == |breaks| && AllCalledFor(lines, breaks, line, width)
    requires forall j :: 0 <= j < |lines| ==> !breaks[j].ForCursor?
    ensures AllCalledFor(lines, breaks, line + [glyph], width)
  {
    forall j | 0 <= j < |lines|
      ensures CalledFor(breaks[j], lines[j], LineAt(lines, line + [glyph], j + 1), width)
    {
      assert CalledFor(breaks[j], lines[j], LineAt(lines, line, j + 1), width);
    }
  }

  /** What is true of the lines and the one being filled once the first `i` characters are placed. */
  ghost predicate Wrapped(lines: seq<Text>, breaks: seq<Break>, line: Text, text: Text, i: nat, width: nat) {
    && |lines| == |breaks| && i <= |text| && Joined(lines, breaks) + line == text[..i]
    && AllCalledFor(lines, breaks, line, width)
    && NoFeeds(line) && (forall j :: 0 <= j < |lines| ==> NoFeeds(lines[j]))
    && (AllFit(text, width) ==> WidthOf(line) <= width && forall j :: 0 <= j < |lines| ==> WidthOf(lines[j]) <= width)
  }

  ghost predicate NoneForCursor(breaks: seq<Break>) {
    forall j :: 0 <= j < |breaks| ==> !breaks[j].ForCursor?
  }

  lemma PushStep(lines: seq<Text>, breaks: seq<Break>, line: Text, text: Text, i: nat, width: nat)
    requires Wrapped(lines, breaks, line, text, i, width) && NoneForCursor(breaks) && i < |text|
             && text[i].symbol != '\n'
    requires !(WidthOf(line) > 0 && WidthOf(line) + text[i].width > width)
    ensures Wrapped(lines, breaks, line + [text[i]], text, i + 1, width)
  {
    hide AllCalledFor, Joined;
    StillCalledFor(lines, breaks, line, text[i], width);
    WidthPush(line, text[i]);
    assert Joined(lines, breaks) + (line + [text[i]]) == text[..i + 1];
  }

  lemma SoftStep(lines: seq<Text>, breaks: seq<Break>, line: Text, text: Text, i: nat, width: nat)
    requires Wrapped(lines, breaks, line, text, i, width) && i < |text| && text[i].symbol != '\n'
    requires WidthOf(line) > 0 && WidthOf(line) + text[i].width > width
    ensures Wrapped(lines + [line], breaks + [Soft], [text[i]], text, i + 1, width)
  {
    hide AllCalledFor, Joined;
    BrokenFor(lines, breaks, line, Soft, [text[i]], width);
    JoinedPush(lines, breaks, line, Soft);
    WidthPush([], text[i]);
    assert [] + [text[i]] == [text[i]];
  }

  lemma HardStep(lines: seq<Text>, breaks: seq<Break>, line: Text, text: Text, i: nat, width: nat)
    requires Wrapped(lines, breaks, line, text, i, width) && i < |text| && text[i].symbol == '\n'
    ensures Wrapped(lines + [line], breaks + [Hard(text[i])], [], text, i + 1, width)
  {
    hide AllCalledFor, Joined;
    BrokenFor(lines, breaks, line, Hard(text[i]), [], width);
    JoinedPush(lines, breaks, line, Hard(text[i]));
  }

  lemma CursorStep(lines: seq<Text>, breaks: seq<Break>, line: Text, text: Text, width: nat)
    requires Wrapped(lines, breaks, line, text, |text|, width) && WidthOf(line) == width
    ensures Wrapped(lines + [line], breaks + [ForCursor], [], text, |text|, width)
  {
    hide AllCalledFor, Joined;
    BrokenFor(lines, breaks, line, ForCursor, [], width);
    JoinedPush(lines, breaks, line, ForCursor);
  }

  /** Some place among the first `i` is the cursor's. */
  ghost predicate Passed(text: Text, i: nat, cursor: Option<nat>)
    requires i <= |text|
  {
    cursor.Some? && exists k: nat :: k < i && LengthOf(text[..k]) == cursor.value
  }

  lemma PassedNext(text: Text, i: nat, cursor: Option<nat>)
    requires i < |text|
    ensures Passed(text, i + 1, cursor) <==> Passed(text, i, cursor) || cursor == Some(LengthOf(text[..i]))
    ensures LengthOf(text[..i + 1]) == LengthOf(text[..i]) + text[i].bytes
  {
    assert text[..i + 1][..i] == text[..i];
  }

  ghost predicate Placed(lines: seq<Text>, breaks: seq<Break>, line: Text, at: Option<(nat, nat)>, text: Text,
                         cursor: Option<nat>)
    requires |lines| == |breaks|
  {
    at.Some? ==> cursor.Some? && IsBehind(lines, breaks, line, at.value, text, cursor.value)
  }

  /** Room has been made for character `i`: it may be placed next. */
  ghost predicate Ready(lines: seq<Text>, breaks: seq<Break>, line: Text, text: Text, i: nat, width: nat) {
    && |lines| == |breaks| && i < |text| && Joined(lines, breaks) + line == text[..i] && NoneForCursor(breaks)
    && if text[i].symbol == '\n' then Wrapped(lines + [line], breaks + [Hard(text[i])], [], text, i + 1, width)
       else Wrapped(lines, breaks, line + [text[i]], text, i + 1, width)
  }

  /** Ends the line if the next character has no room on it. */
  method MakeRoom(lines: seq<Text>, ghost breaks: seq<Break>, line: Text, lineWidth: nat, text: Text, i: nat,
                  width: nat, ghost at: Option<(nat, nat)>, ghost cursor: Option<nat>)
    returns (linesAfter: seq<Text>, ghost breaksAfter: seq<Break>, lineAfter: Text, widthAfter: nat)
    requires Wrapped(lines, breaks, line, text, i, width) && NoneForCursor(breaks) && i < |text|
             && lineWidth == WidthOf(line)
    requires |lines| == |breaks| && Placed(lines, breaks, line, at, text, cursor)
    ensures Ready(linesAfter, breaksAfter, lineAfter, text, i, width) && widthAfter == WidthOf(lineAfter)
    ensures |linesAfter| == |breaksAfter| && Placed(linesAfter, breaksAfter, lineAfter, at, text, cursor)
  {
    hide Wrapped, IsBehind, WidthOf, Joined, Placed;
    var glyph := text[i];
    JoinsTo(lines, breaks, line, text, i, width);
    if glyph.symbol != '\n' && lineWidth > 0 && lineWidth + glyph.width > width {
      SoftStep(lines, breaks, line, text, i, width);
      JoinedPush(lines, breaks, line, Soft);
      PlacedAfterBreak(lines, breaks, line, Soft, at, text, cursor);
      NoWidth();
      assert [] + [glyph] == [glyph];
      return lines + [line], breaks + [Soft], [], 0;
    } else if glyph.symbol != '\n' {
      PushStep(lines, breaks, line, text, i, width);
    } else {
      HardStep(lines, breaks, line, text, i, width);
    }
    return lines, breaks, line, lineWidth;
  }

  /** Everything that holds once the first `i` characters are placed. */
  ghost predicate Filling(lines: seq<Text>, breaks: seq<Break>, line: Text, lineWidth: nat, at: Option<(nat, nat)>,
                          text: Text, i: nat, width: nat, cursor: Option<nat>)
  {
    && |lines| == |breaks| && Wrapped(lines, breaks, line, text, i, width) && NoneForCursor(breaks)
    && i <= |text| && lineWidth == WidthOf(line)
    && (at.Some? <==> Passed(text, i, cursor)) && Placed(lines, breaks, line, at, text, cursor)
  }

  lemma FilledFurther(lines: seq<Text>, breaks: seq<Break>, line: Text, at: Option<(nat, nat)>, text: Text, i: nat,
                      width: nat, cursor: Option<nat>)
    requires Ready(lines, breaks, line, text, i, width) && Placed(lines, breaks, line, at, text, cursor)
    requires at.Some? <==> Passed(text, i + 1, cursor)
    ensures if text[i].symbol == '\n'
            then Filling(lines + [line], breaks + [Hard(text[i])], [], 0, at, text, i + 1, width, cursor)
            else Filling(lines, breaks, line + [text[i]], WidthOf(line) + text[i].width, at, text, i + 1, width, cursor)
  {
    hide Wrapped, IsBehind, WidthOf, Joined, Placed, Passed;
    NoWidth();
    WidthPush(line, text[i]);
    PlacedAfterBreak(lines, breaks, line, Hard(text[i]), at, text, cursor);
    PlacedAfterPush(lines, breaks, line, text[i], at, text, cursor);
  }

  lemma CursorHere(lines: seq<Text>, breaks: seq<Break>, line: Text, text: Text, i: nat, width: nat)
    requires Ready(lines, breaks, line, text, i, width)
    ensures Placed(lines, breaks, line, Some((|lines|, WidthOf(line))), text, Some(LengthOf(text[..i])))
  {
    BehindHere(lines, breaks, line, text, i);
  }

  /** The lines are the text, broken at its line feeds and where the next character has no room and nowhere
      else; none is too wide unless a character is; and the cursor is behind exactly the text before it. */
  method WrapWithCursor(text: Text, wanted: nat, cursor: Option<nat>)
    returns (lines: seq<Text>, cursorPosition: Option<(nat, nat)>, ghost breaks: seq<Break>)
    ensures |lines| == |breaks| + 1
    ensures Wrapped(lines[..|breaks|], breaks, lines[|breaks|], text, |text|, Max(wanted, 1))
    ensures forall j :: 0 <= j < |breaks| && breaks[j].ForCursor? ==>
            j == |breaks| - 1 && cursor == Some(LengthOf(text))
    ensures cursorPosition.Some? <==> Passed(text, |text|, cursor) || cursor == Some(LengthOf(text))
    ensures Placed(lines[..|breaks|], breaks, lines[|breaks|], cursorPosition, text, cursor)
  {
    hide Wrapped, IsBehind, Passed, WidthOf, Placed, LengthOf;
    var width := Max(wanted, 1);
    lines, cursorPosition, breaks := [], None, [];
    var line: Text, lineWidth: nat, offset: nat := [], 0, 0;
    Beginning(text, width, cursor);
    for i := 0 to |text|
      invariant Filling(lines, breaks, line, lineWidth, cursorPosition, text, i, width, cursor)
      invariant offset == LengthOf(text[..i])
    {
      hide Joined, NoneForCursor, Ready;
      var glyph := text[i];
      PassedNext(text, i, cursor);
      lines, breaks, line, lineWidth :=
          MakeRoom(lines, breaks, line, lineWidth, text, i, width, cursorPosition, cursor);
      if cursor == Some(offset) {
        cursorPosition := Some((|lines|, lineWidth));
        CursorHere(lines, breaks, line, text, i, width);
      }
      FilledFurther(lines, breaks, line, cursorPosition, text, i, width, cursor);
      if glyph.symbol == '\n' {
        lines, breaks := lines + [line], breaks + [Hard(glyph)];
        line, lineWidth := [], 0;
      } else {
        line := line + [glyph];
        lineWidth := lineWidth + glyph.width;
      }
      offset := offset + glyph.bytes;
    }
    assert text[..|text|] == text;
    if cursor == Some(offset) && lineWidth == width {
      CursorStep(lines, breaks, line, text, width);
      PlacedAfterBreak(lines, breaks, line, ForCursor, cursorPosition, text, cursor);
      lines, breaks := lines + [line], breaks + [ForCursor];
      line, lineWidth := [], 0;
      NoWidth();
    }
    if cursor == Some(offset) {
      cursorPosition := Some((|lines|, lineWidth));
      CursorAtEnd(lines, breaks, line, text, width);
    }
    assert (lines + [line])[..|lines|] == lines;
    lines := lines + [line];
  }

  lemma CursorAtEnd(lines: seq<Text>, breaks: seq<Break>, line: Text, text: Text, width: nat)
    requires Wrapped(lines, breaks, line, text, |text|, width)
    ensures Placed(lines, breaks, line, Some((|lines|, WidthOf(line))), text, Some(LengthOf(text)))
  {
    assert text[..|text|] == text;
    BehindHere(lines, breaks, line, text, |text|);
  }

  lemma Beginning(text: Text, width: nat, cursor: Option<nat>)
    ensures Filling([], [], [], 0, None, text, 0, width, cursor) && LengthOf(text[..0]) == 0
  {
  }

  lemma NoWidth()
    ensures WidthOf([]) == 0
  {
  }

  lemma JoinsTo(lines: seq<Text>, breaks: seq<Break>, line: Text, text: Text, i: nat, width: nat)
    requires Wrapped(lines, breaks, line, text, i, width)
    ensures |lines| == |breaks| && i <= |text| && Joined(lines, breaks) + line == text[..i]
  {
  }

  lemma PlacedAfterBreak(lines: seq<Text>, breaks: seq<Break>, line: Text, b: Break, at: Option<(nat, nat)>,
                         text: Text, cursor: Option<nat>)
    requires |lines| == |breaks| && Placed(lines, breaks, line, at, text, cursor)
    ensures Placed(lines + [line], breaks + [b], [], at, text, cursor)
  {
    if at.Some? {
      BehindAfterBreak(lines, breaks, line, b, at.value, text, cursor.value);
    }
  }

  lemma PlacedAfterPush(lines: seq<Text>, breaks: seq<Break>, line: Text, glyph: Glyph, at: Option<(nat, nat)>,
                        text: Text, cursor: Option<nat>)
    requires |lines| == |breaks| && Placed(lines, breaks, line, at, text, cursor)
    ensures Placed(lines, breaks, line + [glyph], at, text, cursor)
  {
    if at.Some? {
      BehindAfterPush(lines, breaks, line, glyph, at.value, text, cursor.value);
    }
  }

  // ---- nothing is lost ---------------------------------------------------

  function WithoutFeeds(text: Text): Text {
    if text == [] then []
    else WithoutFeeds(text[..|text| - 1]) + if text[|text| - 1].symbol == '\n' then [] else [text[|text| - 1]]
  }

  function Concatenated(lines: seq<Text>): Text {
    if lines == [] then [] else Concatenated(lines[..|lines| - 1]) + lines[|lines| - 1]
  }

  lemma {:induction false} WithoutFeedsConcat(a: Text, b: Text)
    ensures WithoutFeeds(a + b) == WithoutFeeds(a) + WithoutFeeds(b)
    decreases |b|
  {
    if b == [] {
      assert a + b == a;
    } else {
      var n := |b| - 1;
      assert (a + b)[..|a + b| - 1] == a + b[..n];
      WithoutFeedsConcat(a, b[..n]);
    }
  }

  lemma {:induction false} NoFeedsStays(text: Text)
    requires NoFeeds(text)
    ensures WithoutFeeds(text) == text
  {
    if text != [] {
      NoFeedsStays(text[..|text| - 1]);
    }
  }

  lemma {:induction false} FeedsDropOut(lines: seq<Text>, breaks: seq<Break>)
    requires |lines| == |breaks| && forall j :: 0 <= j < |lines| ==> NoFeeds(lines[j])
    requires forall j :: 0 <= j < |breaks| && breaks[j].Hard? ==> breaks[j].feed.symbol == '\n'
    ensures WithoutFeeds(Joined(lines, breaks)) == Concatenated(lines)
  {
    if lines != [] {
      var n := |lines| - 1;
      FeedsDropOut(lines[..n], breaks[..n]);
      NoFeedsStays(lines[n]);
      WithoutFeedsConcat(Joined(lines[..n], breaks[..n]), lines[n]);
      WithoutFeedsConcat(Joined(lines[..n], breaks[..n]) + lines[n], FeedOf(breaks[n]));
    }
  }

  /** The wrapped lines one after another are the text without its line feeds. */
  lemma WrappingLosesNothing(lines: seq<Text>, breaks: seq<Break>, line: Text, text: Text, width: nat)
    requires Wrapped(lines, breaks, line, text, |text|, width)
    ensures Concatenated(lines + [line]) == WithoutFeeds(text)
  {
    assert text[..|text|] == text && (lines + [line])[..|lines|] == lines;
    forall j | 0 <= j < |breaks| && breaks[j].Hard?
      ensures breaks[j].feed.symbol == '\n'
    {
      assert CalledFor(breaks[j], lines[j], LineAt(lines, line, j + 1), width);
    }
    FeedsDropOut(lines, breaks);
    NoFeedsStays(line);
    WithoutFeedsConcat(Joined(lines, breaks), line);
  }
}
