/** Splitting a text at white space: which words it gives, and what wrapping makes of the text with them. */
module TextWords {
  import opened JsText
  import opened TextLayout
  import opened TextWrap
  import opened TextWrapGreedy

  // ---------------------------------------------------------------- words and gaps

  predicate Gap(g: string) {
    g != "" && forall c | c in g :: IsSpace(c)
  }

  predicate Word(w: string) {
    forall c | c in w :: !IsSpace(c)
  }

  /** Words without white space; only the first and the last may be empty. */
  predicate AreWords(words: seq<string>) {
    && words != []
    && (forall w | w in words :: Word(w))
    && forall i | 0 < i < |words| - 1 :: words[i] != ""
  }

  /** The words with the gaps between them. */
  function Spread(words: seq<string>, gaps: seq<string>): string
    requires |words| == |gaps| + 1
  {
    if gaps == [] then words[0] else words[0] + gaps[0] + Spread(words[1..], gaps[1..])
  }

  lemma SplitNothing()
    ensures SplitWords("") == [""]
  {
  }

  lemma SplitInk(c: char, s: string)
    requires !IsSpace(c)
    ensures SplitWords([c] + s) == [[c] + SplitWords(s)[0]] + SplitWords(s)[1..]
  {
    assert ([c] + s)[1..] == s;
  }

  lemma SplitBlank(s: string)
    requires s != "" && IsSpace(s[0])
    ensures SplitWords(s) == [""] + SplitWords(TrimStart(s))
  {
  }

  lemma {:induction false} SplitWord(w: string, t: string)
    requires Word(w) && (t == "" || IsSpace(t[0]))
    ensures SplitWords(w + t) == [w + SplitWords(t)[0]] + SplitWords(t)[1..]
  {
    hide SplitWords;
    if w == "" {
      assert w + t == t && w + SplitWords(t)[0] == SplitWords(t)[0];
    } else {
      assert w[0] in w;
      assert forall c | c in w[1..] :: c in w;
      SplitWord(w[1..], t);
      SplitInk(w[0], w[1..] + t);
      assert w + t == [w[0]] + (w[1..] + t);
      assert [w[0]] + (w[1..] + SplitWords(t)[0]) == w + SplitWords(t)[0];
    }
  }

  lemma TailWords(words: seq<string>)
    requires AreWords(words) && |words| > 1
    ensures AreWords(words[1..])
  {
    forall i | 0 < i < |words[1..]| - 1 ensures words[1..][i] != "" {
      assert words[i + 1] != "";
    }
  }

  /** Splitting undoes spreading. */
  lemma {:induction false} SplitOfSpread(words: seq<string>, gaps: seq<string>)
    requires AreWords(words) && |words| == |gaps| + 1 && forall g | g in gaps :: Gap(g)
    ensures SplitWords(Spread(words, gaps)) == words
  {
    hide SplitWords, TrimStart;
    assert words[0] in words;
    if gaps == [] {
      SplitWord(words[0], "");
      assert SplitWords("") == [""] by { SplitNothing(); }
      assert words[0] + "" == words[0];
      assert [words[0]] + [] == words;
    } else {
      var g, later := gaps[0], Spread(words[1..], gaps[1..]);
      assert g in gaps;
      TailWords(words);
      assert forall h | h in gaps[1..] :: h in gaps;
      SplitOfSpread(words[1..], gaps[1..]);
      assert later == "" || !IsSpace(later[0]) by { StartsWithWord(words, gaps); }
      TrimStartOf(g, later);
      SplitWord(words[0], g + later);
      assert (g + later)[0] == g[0] && g[0] in g;
      SplitBlank(g + later);
      assert words[0] + (g + later) == Spread(words, gaps) && words[0] + "" == words[0];
    }
  }

  lemma StartsWithWord(words: seq<string>, gaps: seq<string>)
    requires AreWords(words) && |words| == |gaps| + 1 && gaps != [] && forall g | g in gaps :: Gap(g)
    ensures var later := Spread(words[1..], gaps[1..]); later == "" || !IsSpace(later[0])
  {
    var w := words[1];
    assert w in words && words[1..][0] == w;
    if w != "" {
      assert w[0] in w;
      assert Spread(words[1..], gaps[1..])[0] == w[0];
    }
  }

  /** Every text is spread from its words. */
  lemma {:induction false} SpreadOfSplit(s: string) returns (gaps: seq<string>)
    ensures AreWords(SplitWords(s)) && (forall g | g in gaps :: Gap(g))
    ensures |SplitWords(s)| == |gaps| + 1 && Spread(SplitWords(s), gaps) == s
    ensures s != "" && !IsSpace(s[0]) ==> SplitWords(s)[0] != ""
    decreases |s|
  {
    hide SplitWords, TrimStart;
    var words := SplitWords(s);
    if s == "" {
      gaps := [];
      SplitNothing();
    } else if IsSpace(s[0]) {
      var r := TrimStart(s);
      var g := s[..|s| - |r|];
      TrimStartDrops(s);
      SplitBlank(s);
      var later := SpreadOfSplit(r);
      gaps := [g] + later;
      assert words[1..] == SplitWords(r) && gaps[1..] == later;
      assert s == "" + g + r;
      if r == "" { SplitNothing(); }
      BlankFirst(words, r);
    } else {
      var rest := SplitWords(s[1..]);
      gaps := SpreadOfSplit(s[1..]);
      assert s == [s[0]] + s[1..];
      SplitInk(s[0], s[1..]);
      assert words == [[s[0]] + rest[0]] + rest[1..] && words[1..] == rest[1..];
      forall i | 0 < i < |words| - 1 ensures words[i] != "" {
        assert words[i] == rest[i];
      }
      SpreadFirst(s[0], rest, gaps);
    }
  }

  lemma BlankFirst(words: seq<string>, r: string)
    requires AreWords(SplitWords(r)) && words == [""] + SplitWords(r)
    requires r != "" ==> SplitWords(r)[0] != ""
    requires r == "" ==> |SplitWords(r)| == 1
    ensures AreWords(words)
  {
    hide SplitWords;
    forall i | 0 < i < |words| - 1 ensures words[i] != "" {
      assert words[i] == SplitWords(r)[i - 1];
    }
  }

  lemma SpreadFirst(c: char, words: seq<string>, gaps: seq<string>)
    requires |words| == |gaps| + 1
    ensures Spread([[c] + words[0]] + words[1..], gaps) == [c] + Spread(words, gaps)
  {
    var longer := [[c] + words[0]] + words[1..];
    assert longer[1..] == words[1..];
    if gaps != [] {
      assert [c] + words[0] + gaps[0] + Spread(words[1..], gaps[1..]) == [c] + (words[0] + gaps[0] + Spread(words[1..], gaps[1..]));
    }
  }

  ghost predicate IsSplit(s: string, words: seq<string>) {
    AreWords(words) && exists gaps: seq<string> ::
      |words| == |gaps| + 1 && (forall g | g in gaps :: Gap(g)) && s == Spread(words, gaps)
  }

  /** The words of a text are the only ones it can be spread from with white space. */
  lemma {:induction false} SplitWordsIff(s: string, words: seq<string>)
    ensures words == SplitWords(s) <==> IsSplit(s, words)
  {
    var gaps := SpreadOfSplit(s);
    assert IsSplit(s, SplitWords(s));
    if IsSplit(s, words) {
      var own: seq<string> :| |words| == |own| + 1 && (forall g | g in own :: Gap(g)) && s == Spread(words, own);
      SplitOfSpread(words, own);
    }
  }

  // ---------------------------------------------------------------- wrapping a text

  /** The words that are not empty. */
  function Solid(words: seq<string>): (r: seq<string>)
    ensures forall w | w in r :: w != ""
  {
    if words == [] then [] else (if words[0] == "" then [] else [words[0]]) + Solid(words[1..])
  }

  lemma {:induction false} SolidOfSolid(words: seq<string>)
    requires forall w | w in words :: w != ""
    ensures Solid(words) == words && Solid(words + [""]) == words
  {
    if words == [] {
      assert [""][1..] == [];
    } else {
      assert words[0] in words;
      assert forall w | w in words[1..] :: w in words;
      SolidOfSolid(words[1..]);
      assert (words + [""])[1..] == words[1..] + [""];
    }
  }

  /** White space at the end of the text leaves a space at the end of the last line if there is room for it. */
  function WithSpace(lines: seq<string>, width: int): seq<string>
    requires lines != []
  {
    var last := lines[|lines| - 1];
    if Width(last) + 1 <= width then lines[..|lines| - 1] + [last + " "] else lines
  }

  lemma WithSpaceLater(a: seq<string>, b: seq<string>, width: int)
    requires b != []
    ensures WithSpace(a + b, width) == a + WithSpace(b, width)
  {
    assert (a + b)[..|a + b| - 1] == a + b[..|b| - 1];
  }

  lemma {:induction false} RemainderNonEmpty(piece: string, width: int)
    requires piece != ""
    ensures Remainder(piece, width) != ""
    decreases |piece|
  {
    hide Width;
    var chunk := Clipped(piece, width);
    if Width(piece) > width && chunk != "" {
      ClipIsLongest(piece, width, |chunk|);
      WholeWhenAll(chunk, piece);
      RemainderNonEmpty(piece[|chunk|..], width);
    }
  }

  /** One more empty word at the end. */
  lemma {:induction false} LayoutEndsBlank(words: seq<string>, current: string, width: int)
    requires (forall w | w in words :: w != "") && (words != [] || current != "")
    ensures Layout(words, current, width) != []
    ensures Layout(words + [""], current, width) == WithSpace(Layout(words, current, width), width)
    decreases |words|
  {
    hide Layout, Chunks, Remainder, Width;
    if words == [] {
      BlankAfter(current, width);
      assert [] + [""] == [""];
    } else {
      var word, rest := words[0], words[1..];
      assert word in words;
      assert [word] + rest == words && words + [""] == [word] + (rest + [""]);
      assert forall w | w in rest :: w in words;
      var piece := Piece(current, word, width);
      LayoutStep(word, rest, current, width);
      LayoutStep(word, rest + [""], current, width);
      assert piece != "";
      RemainderNonEmpty(piece, width);
      var r := Remainder(piece, width);
      LayoutEndsBlank(rest, r, width);
      WithSpaceLater(Chunks(piece, width), Layout(rest, r, width), width);
      WithSpaceLater(Finished(current, word, width), Chunks(piece, width) + Layout(rest, r, width), width);
    }
  }

  lemma BlankAfter(current: string, width: int)
    requires current != ""
    ensures Layout([], current, width) == [current]
    ensures Layout([""], current, width) == WithSpace([current], width)
  {
    hide Width;
    LayoutStep("", [], current, width);
    assert [""] + [] == [""];
    var next := current + " " + "";
    assert next == current + " ";
    WidthAppend(current, " ");
    SpaceWidth();
    if Width(next) > width {
      NothingToCut("", width);
      assert Clipped("", width) == "";
      assert Layout([], "", width) == [];
    } else {
      NothingToCut(next, width);
    }
  }

  lemma SpaceWidth()
    ensures Width(" ") == 1
  {
    assert " "[1..] == "";
  }

  /** An empty first word changes nothing. */
  lemma LayoutAfterBlank(words: seq<string>, width: int)
    ensures Layout([""] + words, "", width) == Layout(words, "", width)
  {
    hide Layout;
    LayoutStep("", words, "", width);
    assert Clipped("", width) == "";
    NothingToCut("", width);
    assert [] + ([] + Layout(words, "", width)) == Layout(words, "", width);
  }

  /**
   The lines of a text on an unbounded page are the one greedy layout of its words, whatever
   white space stands between and before them; white space behind them leaves at most a
   space at the end of the last line.
   */
  lemma {:induction false} FullLayoutIsGreedy(value: string, width: int) returns (plain: seq<string>)
    ensures Greedy(Solid(SplitWords(value)), plain, width)
    ensures FullLayout(value, width) == if plain != [] && value != "" && IsSpace(value[|value| - 1]) then WithSpace(plain, width) else plain
  {
    hide Layout, Greedy, SplitWords, WithSpace;
    var words := SplitWords(value);
    plain := Layout(Solid(words), "", width);
    LayoutIsGreedy(Solid(words), width);
    var gaps := SpreadOfSplit(value);
    LastWord(value);
    SplitNothing();
    var inner := if words[0] == "" then words[1..] else words;
    if words[0] == "" {
      assert words == [""] + inner;
      LayoutAfterBlank(inner, width);
      assert Solid(words) == Solid(inner);
    }
    if inner == [] {
      assert plain == [] by { NoLines(width); }
      assert Layout(inner, "", width) == [] by { NoLines(width); }
    } else {
      InnerLayout(words, inner, width);
      assert value != "";
    }
  }

  lemma InnerLayout(words: seq<string>, inner: seq<string>, width: int)
    requires AreWords(words) && inner != [] && inner == if words[0] == "" then words[1..] else words
    ensures var plain := Layout(Solid(inner), "", width);
            Layout(inner, "", width) == if plain != [] && words[|words| - 1] == "" then WithSpace(plain, width) else plain
  {
    hide Layout, WithSpace;
    var n := |inner| - 1;
    var front, last := inner[..n], inner[n];
    assert inner == front + [last] && last == words[|words| - 1];
    forall w | w in front ensures w != "" {
      var i :| 0 <= i < n && front[i] == w;
      assert inner[i] == w;
    }
    SolidOfSolid(front);
    if last != "" {
      SolidOfSolid(inner);
    } else if front == [] {
      assert inner == [""] + [];
      LayoutAfterBlank([], width);
      NoLines(width);
    } else {
      LayoutEndsBlank(front, "", width);
    }
  }

  /** The last word is empty exactly when the text is empty or ends in white space. */
  lemma {:induction false} LastWord(s: string)
    ensures var words := SplitWords(s); words[|words| - 1] == "" <==> s == "" || IsSpace(s[|s| - 1])
    decreases |s|
  {
    hide SplitWords, TrimStart;
    if s == "" {
      SplitNothing();
    } else if IsSpace(s[0]) {
      var r := TrimStart(s);
      SplitBlank(s);
      TrimStartDrops(s);
      LastWord(r);
      if r == "" {
        SplitNothing();
        assert s[|s| - 1] in s[..|s| - |r|];
      } else {
        assert r[|r| - 1] == s[|s| - 1];
      }
    } else {
      var later := s[1..];
      assert s == [s[0]] + later;
      SplitInk(s[0], later);
      LastWord(later);
      if later == "" {
        SplitNothing();
      } else {
        assert later[|later| - 1] == s[|s| - 1];
        if |SplitWords(later)| == 1 { OneWord(later); }
      }
    }
  }

  lemma OneWord(s: string)
    requires s != "" && |SplitWords(s)| == 1
    ensures SplitWords(s)[0] != ""
  {
  }
}
