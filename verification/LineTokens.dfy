/**
 How the text differ cuts a text: at line feeds, at carriage returns followed by one, and at carriage
 returns alone. A source document has lines at line feeds only.
 */
module LineTokens {
  import opened Bytes
  import opened LineIndexing
  import opened CodeBlocks
  import opened SourceDocuments

  /** Whether a line ends after `last` when `next` follows. */
  predicate Breaks(last: byte, next: byte) {
    last == LF || (last == CR && next != LF)
  }

  function Tokens(text: Source): (r: seq<Source>)
    ensures r == [] <==> text == []
  {
    if text == [] then []
    else
      var init, b := text[..|text| - 1], text[|text| - 1];
      var before := Tokens(init);
      if init == [] || Breaks(init[|init| - 1], b) then before + [[b]]
      else before[..|before| - 1] + [before[|before| - 1] + [b]]
  }

  lemma TokensPush(init: Source, b: byte)
    ensures Tokens(init + [b]) == if init == [] || Breaks(init[|init| - 1], b) then Tokens(init) + [[b]]
                                  else Tokens(init)[..|Tokens(init)| - 1] + [Tokens(init)[|Tokens(init)| - 1] + [b]]
  {
    assert (init + [b])[..|init|] == init;
  }

  // ---- what the tokens are ---------------------------------------------------

  function Joined(tokens: seq<Source>): Source {
    if tokens == [] then [] else Joined(tokens[..|tokens| - 1]) + tokens[|tokens| - 1]
  }

  /** Nothing before the end of a line ends it. */
  ghost predicate OneLine(token: Source) {
    token != [] && forall i :: 0 <= i < |token| - 1 ==> !Breaks(token[i], token[i + 1])
  }

  /** The text in order, cut exactly where lines end. */
  ghost predicate Cut(tokens: seq<Source>, text: Source) {
    && Joined(tokens) == text
    && (forall i :: 0 <= i < |tokens| ==> OneLine(tokens[i]))
    && forall i :: 0 <= i < |tokens| - 1 ==> Breaks(tokens[i][|tokens[i]| - 1], tokens[i + 1][0])
  }

  lemma {:induction false} TokensCut(text: Source)
    ensures Cut(Tokens(text), text)
    ensures text != [] ==>
            Tokens(text)[|Tokens(text)| - 1] != []
            && text[|text| - 1] == LastByte(Tokens(text)[|Tokens(text)| - 1])
  {
    if text != [] {
      var init, b := text[..|text| - 1], text[|text| - 1];
      assert text == init + [b];
      TokensCut(init);
      var before := Tokens(init);
      if init == [] || Breaks(init[|init| - 1], b) {
        CutGrows(before, init, b);
      } else {
        TokenGrows(before, init, b);
      }
    }
  }

  function LastByte(token: Source): byte
    requires token != []
  {
    token[|token| - 1]
  }

  lemma CutGrows(tokens: seq<Source>, text: Source, b: byte)
    requires Cut(tokens, text)
             && (tokens == [] || (tokens[|tokens| - 1] != [] && Breaks(LastByte(tokens[|tokens| - 1]), b)))
    ensures Cut(tokens + [[b]], text + [b])
  {
    assert (tokens + [[b]])[..|tokens|] == tokens;
  }

  lemma TokenGrows(tokens: seq<Source>, text: Source, b: byte)
    requires Cut(tokens, text) && tokens != [] && tokens[|tokens| - 1] != []
             && !Breaks(LastByte(tokens[|tokens| - 1]), b)
    ensures Cut(tokens[..|tokens| - 1] + [tokens[|tokens| - 1] + [b]], text + [b])
  {
    var init, last := tokens[..|tokens| - 1], tokens[|tokens| - 1];
    var after := init + [last + [b]];
    assert after[..|init|] == init;
    assert Joined(init) + (last + [b]) == Joined(tokens) + [b];
    forall i | 0 <= i < |last + [b]| - 1
      ensures !Breaks((last + [b])[i], (last + [b])[i + 1])
    {
      assert OneLine(last);
    }
  }

  // ---- against the lines of a source document ----------------------------------

  /** Carriage returns inside the text that no line feed follows. */
  function LoneCRs(text: Source): nat {
    if |text| < 2 then 0
    else LoneCRs(text[..|text| - 1]) + if text[|text| - 2] == CR && text[|text| - 1] != LF then 1 else 0
  }

  predicate NoLoneCR(text: Source) {
    forall i :: 0 <= i < |text| - 1 && text[i] == CR ==> text[i + 1] == LF
  }

  lemma {:induction false} NoLoneCRIff(text: Source)
    ensures NoLoneCR(text) <==> LoneCRs(text) == 0
  {
    if |text| >= 2 {
      var init := text[..|text| - 1];
      NoLoneCRIff(init);
      assert NoLoneCR(text) ==> NoLoneCR(init);
      if NoLoneCR(init) && (text[|text| - 2] == CR ==> text[|text| - 1] == LF) {
        forall i | 0 <= i < |text| - 1 && text[i] == CR
          ensures text[i + 1] == LF
        {
          assert i < |init| - 1 ==> init[i] == CR && init[i + 1] == text[i + 1];
        }
      }
    }
  }

  ghost function LineTokens(text: Source): (r: seq<Source>)
    ensures |r| == |TextLines(text)|
  {
    seq(|TextLines(text)|, i requires 0 <= i < |TextLines(text)| => LineToken(text, i))
  }

  lemma LineTokensPush(init: Source, b: byte)
    ensures init != [] ==> LineTokens(init) != []
    ensures LineTokens(init + [b])
         == if init == [] || EndsWithLF(init) then LineTokens(init) + [[b]]
            else
              LineTokens(init)[..|LineTokens(init)| - 1]
              + [LineTokens(init)[|LineTokens(init)| - 1] + [b]]
  {
    hide SplitLF;
    SplitPush(init, b);
    if init == [] {
      SplitNothing();
      var none: Source := [];
      assert [none][..0] == [] && none + [b] == [b] && [none, none][..1] == [none];
      assert TextLines([b]) == if b == LF then [none] else [[b]];
    } else if EndsWithLF(init) {
      AfterLF(init);
      LineBegins(init, b);
    } else {
      LineGoesOn(init, b);
    }
  }

  lemma LineBegins(init: Source, b: byte)
    requires EndsWithLF(init) && LastPiece(init) == []
    ensures LineTokens(init + [b]) == LineTokens(init) + [[b]]
  {
    hide SplitLF;
    SplitPush(init, b);
    var lines, n := SplitLF(init), |SplitLF(init)| - 1;
    var none: Source := [];
    assert none + [b] == [b];
    assert (lines + [none])[..n + 1] == lines == lines[..n] + [none];
    assert TextLines(init + [b]) == lines[..n] + [if b == LF then none else [b]];
  }

  lemma LineGoesOn(init: Source, b: byte)
    requires init != [] && !EndsWithLF(init)
    ensures LineTokens(init) != []
    ensures LineTokens(init + [b]) == LineTokens(init)[..|LineTokens(init)| - 1]
            + [LineTokens(init)[|LineTokens(init)| - 1] + [b]]
  {
    hide SplitLF;
    SplitPush(init, b);
    var lines, n := SplitLF(init), |SplitLF(init)| - 1;
    var none: Source := [];
    assert (lines + [none])[..n + 1] == lines;
    assert TextLines(init + [b]) == if b == LF then lines else lines[..n] + [lines[n] + [b]];
  }

  lemma AfterLF(text: Source)
    requires EndsWithLF(text)
    ensures |SplitLF(text)| > 1 && LastPiece(text) == []
  {
    hide SplitLF;
    SplitLast(text);
    var k := |text| - |LastPiece(text)|;
    assert text[k..|text|] == text[k..];
    SliceWithout(text, k, |text|, LF);
  }

  /** There is one token more than there are lines for each lone carriage return. */
  lemma {:induction false} TokensCount(text: Source)
    ensures |Tokens(text)| == |TextLines(text)| + LoneCRs(text)
  {
    if text != [] {
      hide TextLines, LineTokens;
      var init, b := text[..|text| - 1], text[|text| - 1];
      assert text == init + [b];
      TokensCount(init);
      TokensPush(init, b);
      LineTokensPush(init, b);
    }
  }

  /** The differ and the source document see the same lines exactly when there is none. */
  lemma TokensAreLinesIff(text: Source)
    ensures Tokens(text) == LineTokens(text) <==> NoLoneCR(text)
  {
    hide TextLines, LineTokens;
    TokensCount(text);
    NoLoneCRIff(text);
    if NoLoneCR(text) {
      TokensAreLines(text);
    }
  }

  lemma {:induction false} TokensAreLines(text: Source)
    requires NoLoneCR(text)
    ensures Tokens(text) == LineTokens(text)
  {
    if text != [] {
      hide TextLines, LineTokens;
      var init, b := text[..|text| - 1], text[|text| - 1];
      assert text == init + [b];
      TokensAreLines(init);
      TokensPush(init, b);
      LineTokensPush(init, b);
    }
  }

  predicate EveryCRBeforeLF(text: Source) {
    forall i :: 0 <= i < |text| && text[i] == CR ==> i + 1 < |text| && text[i + 1] == LF
  }

  /** A token without a line feed ends where the text does. */
  lemma LastTokenEnds(text: Source, i: nat)
    requires i < |TextLines(text)|
    ensures EndsWithLF(LineToken(text, i))
            || (text != [] && LineToken(text, i) != []
                && LineToken(text, i)[|LineToken(text, i)| - 1] == text[|text| - 1])
  {
    hide SplitLF;
    SplitLast(text);
    TokenShape(text, i);
  }

  lemma LastIsTheEnd(text: Source)
    requires NoLoneCR(text) && !EveryCRBeforeLF(text)
    ensures TextLines(text) != []
            && var token := LineToken(text, |TextLines(text)| - 1);
               !EndsWithLF(token) && StripCR(token) != token
  {
    hide SplitLF;
    assert text[|text| - 1] == CR;
    SplitLast(text);
    TokenShape(text, |TextLines(text)| - 1);
  }

  /** The one-line file `a`, carriage return, `b`, line feed is two lines to the differ. */
  lemma LoneCRIsALine()
    ensures var text: Source := [97, CR, 98, LF];
            Tokens(text) == [[97, CR], [98, LF]] && TextLines(text) == [[97, CR, 98]] && LoneCRs(text) == 1
  {
    hide TextLines, Tokens;
    var a: Source, ab: Source := [97, CR], [97, CR, 98];
    assert [97 as byte] + [CR] == a && a + [98] == ab && ab + [LF] == [97, CR, 98, LF];
    FirstToken();
    TokensPush(a, 98);
    TokensPush(ab, LF);
    assert [a] + [[98]] == [a, [98]] && [a, [98]][..1] == [a] && [98 as byte] + [LF] == [98, LF];
    assert [a] + [[98, LF]] == [a, [98, LF]];
    OneTerminatedLine(ab);
    TokensCount(ab + [LF]);
  }

  lemma FirstToken()
    ensures Tokens([97, CR]) == [[97, CR]]
  {
    hide Tokens;
    var none: Source, one: Source := [], [97];
    TokensPush(none, 97);
    TokensPush(one, CR);
    assert none + [97] == one && one + [CR] == [97, CR];
    var tokens: seq<Source> := [];
    assert Tokens(none) == tokens && tokens + [one] == [one] && [one][..0] == tokens
           && tokens + [[97, CR]] == [[97, CR]];
  }

  lemma OneTerminatedLine(line: Source)
    requires LF !in line
    ensures TextLines(line + [LF]) == [line]
  {
    hide SplitLF;
    OnePiece(line);
    SplitPush(line, LF);
    var none: Source := [];
    assert [line, none][..1] == [line];
  }
}
