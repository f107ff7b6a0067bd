/**
 Which layout wrapping chooses: each line takes as many whole words as fit, and a word that
 does not fit on a line of its own is cut where the next character would not fit. The
 layout is the only one of this kind.
 */
module TextWrapGreedy {
  import opened TextLayout
  import opened TextWrap
  import opened TextWrapProperties

  // ---------------------------------------------------------------- what a line takes

  /**
   The line is the first k words with single spaces, the next word would not fit behind
   them, and they fit themselves, unless the line is one word whose first character is too
   wide for any line.
   */
  predicate TakesWords(line: string, words: seq<string>, k: nat, width: int) {
    && 1 <= k <= |words| && line == JoinSpaced(words[..k])
    && (k < |words| ==> Width(line + " " + words[k]) > width)
    && (Width(line) <= width || (k == 1 && line != "" && CharWidth(line[0]) > width))
  }

  /** The line is the front of the first word, as long as it can be, and the word goes on. */
  predicate TakesFront(line: string, words: seq<string>, width: int) {
    && words != [] && line != "" && |line| < |words[0]| && line == words[0][..|line|]
    && Width(line) <= width < Width(words[0][..|line| + 1])
  }

  /** The words once the line has taken the front of the first. */
  function CutWords(line: string, words: seq<string>): seq<string>
    requires words != [] && |line| < |words[0]|
  {
    [words[0][|line|..]] + words[1..]
  }

  /** The lines carry exactly these words, each line as full as it can be. */
  ghost predicate Greedy(words: seq<string>, lines: seq<string>, width: int)
    decreases |lines|
  {
    if lines == [] then words == []
    else
      || (exists k: nat | k <= |words| :: TakesWords(lines[0], words, k, width) && Greedy(words[k..], lines[1..], width))
      || (TakesFront(lines[0], words, width) && Greedy(CutWords(lines[0], words), lines[1..], width))
  }

  // ---------------------------------------------------------------- joined words

  lemma JoinSpacedOne(w: string)
    ensures JoinSpaced([w]) == w
  {
  }

  lemma {:induction false} JoinSpacedSnoc(words: seq<string>, k: nat)
    requires 1 <= k < |words|
    ensures JoinSpaced(words[..k + 1]) == JoinSpaced(words[..k]) + " " + words[k]
    decreases k
  {
    if k == 1 {
      assert words[..2] == [words[0], words[1]] && words[..1] == [words[0]] && words[..2][1..] == [words[1]];
    } else {
      var rest := words[1..];
      JoinSpacedSnoc(rest, k - 1);
      assert words[..k + 1][1..] == rest[..k] && words[..k][1..] == rest[..k - 1];
      SpacedTail(words[0], JoinSpaced(rest[..k - 1]), words[k]);
    }
  }

  lemma SpacedTail(a: string, b: string, c: string)
    ensures a + " " + (b + " " + c) == a + " " + b + " " + c
  {
  }

  /** A longer prefix of the words is a longer and no narrower line. */
  lemma {:induction false} MoreWordsWider(words: seq<string>, k: nat, n: nat)
    requires 1 <= k < n <= |words|
    ensures Width(JoinSpaced(words[..k]) + " " + words[k]) <= Width(JoinSpaced(words[..n]))
    decreases n
  {
    hide Width, JoinSpaced;
    if k + 1 == n {
      JoinSpacedSnoc(words, k);
    } else {
      MoreWordsWider(words, k, n - 1);
      JoinSpacedSnoc(words, n - 1);
      WidthAppend(JoinSpaced(words[..n - 1]), " ");
      WidthAppend(JoinSpaced(words[..n - 1]) + " ", words[n - 1]);
    }
  }

  lemma FirstWordNoWider(words: seq<string>, k: nat)
    requires 1 <= k <= |words|
    ensures Width(words[0]) <= Width(JoinSpaced(words[..k]))
  {
    hide Width;
    if k == 1 {
      assert words[..1] == [words[0]];
    } else {
      MoreWordsWider(words, 1, k);
      assert words[..1] == [words[0]];
      WidthAppend(words[0], " ");
      WidthAppend(words[0] + " ", words[1]);
    }
  }

  lemma PrefixNoWider(s: string, a: nat, b: nat)
    requires a <= b <= |s|
    ensures Width(s[..a]) <= Width(s[..b])
  {
    assert s[..b] == s[..a] + s[a..b];
    WidthAppend(s[..a], s[a..b]);
  }

  // ---------------------------------------------------------------- one line at most

  /** Two lines that take whole words take the same ones. */
  lemma SameWords(words: seq<string>, a: string, j: nat, b: string, k: nat, width: int)
    requires forall w | w in words :: w != ""
    requires TakesWords(a, words, j, width) && TakesWords(b, words, k, width)
    ensures j == k && a == b
  {
    hide Width, JoinSpaced;
    if j < k { MoreWordsWider(words, j, k); }
    if k < j { MoreWordsWider(words, k, j); }
  }

  lemma SameFront(words: seq<string>, a: string, b: string, width: int)
    requires TakesFront(a, words, width) && TakesFront(b, words, width)
    ensures a == b
  {
    hide Width;
    if |a| < |b| { PrefixNoWider(words[0], |a| + 1, |b|); }
    if |b| < |a| { PrefixNoWider(words[0], |b| + 1, |a|); }
  }

  /** A word is cut only if it fits on no line. */
  lemma WordsOrFront(words: seq<string>, a: string, k: nat, b: string, width: int)
    requires forall w | w in words :: w != ""
    requires TakesWords(a, words, k, width)
    ensures !TakesFront(b, words, width)
  {
    hide Width, JoinSpaced;
    var word := words[0];
    assert word in words;
    if TakesFront(b, words, width) {
      PrefixNoWider(word, |b| + 1, |word|);
      assert word[..|word|] == word;
      FirstWordNoWider(words, k);
      PrefixNoWider(word, 1, |b|);
      OneChar(word);
      assert k == 1 ==> a == word by {
        assert words[..1] == [word];
        JoinSpacedOne(word);
      }
      assert false;
    }
  }

  lemma OneChar(word: string)
    requires word != ""
    ensures Width(word[..1]) == CharWidth(word[0])
  {
    assert word[..1][1..] == "";
  }

  // ---------------------------------------------------------------- the layout takes such lines

  /** The line the layout is on: some whole words, and it is not too wide but for an uncuttable word. */
  predicate OnLine(current: string, words: seq<string>, k: nat, width: int) {
    && 1 <= k <= |words| && current == JoinSpaced(words[..k]) && current != ""
    && (Width(current) <= width || (k == 1 && CharWidth(current[0]) > width))
  }

  /** From a line begun, the layout ends the line where the next word would not fit. */
  lemma {:induction false} EndsLine(words: seq<string>, current: string, k: nat, width: int) returns (n: nat)
    requires forall w | w in words :: w != ""
    requires OnLine(current, words, k, width)
    ensures n <= |words|
    ensures var line := JoinSpaced(words[..n]);
            TakesWords(line, words, n, width) && Layout(words[k..], current, width) == [line] + Layout(words[n..], "", width)
    decreases |words| - k
  {
    hide JoinSpaced, Width, Chunks, Remainder, Layout;
    if k == |words| {
      n := k;
      LayoutOfNothing(current, width);
      assert words[k..] == [];
    } else {
      var word := words[k];
      assert word in words;
      assert words[k..] == [word] + words[k + 1..];
      LayoutStep(word, words[k + 1..], current, width);
      var next := current + " " + word;
      if Width(next) > width {
        n := k;
        LayoutStep(word, words[k + 1..], "", width);
        assert [] + (Chunks(word, width) + Layout(words[k + 1..], Remainder(word, width), width))
            == Chunks(word, width) + Layout(words[k + 1..], Remainder(word, width), width);
      } else {
        WidthAppend(current, " ");
        WidthAppend(current + " ", word);
        JoinSpacedSnoc(words, k);
        NothingToCut(next, width);
        n := EndsLine(words, next, k + 1, width);
        assert [] + ([] + Layout(words[k + 1..], next, width)) == Layout(words[k + 1..], next, width);
      }
    }
  }

  lemma LayoutOfNothing(current: string, width: int)
    requires current != ""
    ensures Layout([], current, width) == [current] + Layout([], "", width)
  {
  }

  lemma NothingToCut(piece: string, width: int)
    requires Width(piece) <= width || Clipped(piece, width) == ""
    ensures Chunks(piece, width) == [] && Remainder(piece, width) == piece
  {
  }

  lemma CutOnce(piece: string, width: int)
    requires Width(piece) > width && Clipped(piece, width) != ""
    ensures var chunk := Clipped(piece, width);
            && Chunks(piece, width) == [chunk] + Chunks(piece[|chunk|..], width)
            && Remainder(piece, width) == Remainder(piece[|chunk|..], width)
  {
  }

  /** The first word stays whole: it fits, or its first character fits nowhere. */
  lemma KeepsWord(words: seq<string>, width: int) returns (n: nat)
    requires words != [] && forall w | w in words :: w != ""
    requires Width(words[0]) <= width || Clipped(words[0], width) == ""
    ensures n <= |words|
    ensures var line := JoinSpaced(words[..n]);
            TakesWords(line, words, n, width) && Layout(words, "", width) == [line] + Layout(words[n..], "", width)
  {
    hide Width, Chunks, Remainder, Layout;
    var word := words[0];
    assert word in words;
    assert words[..1] == [word] && [word] + words[1..] == words;
    NothingToCut(word, width);
    LayoutStep(word, words[1..], "", width);
    assert [] + ([] + Layout(words[1..], word, width)) == Layout(words[1..], word, width);
    n := EndsLine(words, word, 1, width);
  }

  lemma WholeWhenAll(line: string, word: string)
    requires line <= word
    ensures |line| == |word| ==> line == word
  {
  }

  /** The first word is cut: a line takes its front. */
  lemma CutsWord(words: seq<string>, width: int)
    requires words != [] && forall w | w in words :: w != ""
    requires Width(words[0]) > width && Clipped(words[0], width) != ""
    ensures var line := Clipped(words[0], width);
            && TakesFront(line, words, width)
            && Layout(words, "", width) == [line] + Layout(CutWords(line, words), "", width)
  {
    hide Width, Chunks, Remainder, Layout;
    var word, rest := words[0], words[1..];
    var line := Clipped(word, width);
    ClipIsLongest(word, width, |line|);
    WholeWhenAll(line, word);
    var left := word[|line|..];
    CutOnce(word, width);
    assert [word] + rest == words && CutWords(line, words) == [left] + rest;
    LayoutStep(word, rest, "", width);
    LayoutStep(left, rest, "", width);
    var later := Layout(rest, Remainder(word, width), width);
    assert [] + (Chunks(word, width) + later) == [line] + ([] + (Chunks(left, width) + later));
  }

  lemma StillWords(line: string, words: seq<string>)
    requires words != [] && (forall w | w in words :: w != "") && |line| < |words[0]|
    ensures forall w | w in CutWords(line, words) :: w != ""
  {
    assert forall w | w in words[1..] :: w in words;
    assert |words[0][|line|..]| == |words[0]| - |line|;
  }

  lemma {:induction false} LayoutIsGreedy(words: seq<string>, width: int)
    requires forall w | w in words :: w != ""
    ensures Greedy(words, Layout(words, "", width), width)
    decreases Size(words)
  {
    hide Width, Layout, TakesWords, TakesFront;
    var lines := Layout(words, "", width);
    if words == [] {
      assert lines == [] by { NoLines(width); }
    } else if Width(words[0]) > width && Clipped(words[0], width) != "" {
      CutsWord(words, width);
      var line := Clipped(words[0], width);
      assert |line| < |words[0]| by { FrontIsShorter(line, words, width); }
      StillWords(line, words);
      CutIsSmaller(line, words);
      LayoutIsGreedy(CutWords(line, words), width);
      assert lines[0] == line && lines[1..] == Layout(CutWords(line, words), "", width);
    } else {
      var n := KeepsWord(words, width);
      TakesSome(words, n, width);
      FewerAreSmaller(words, n);
      assert forall w | w in words[n..] :: w in words;
      LayoutIsGreedy(words[n..], width);
      assert lines[0] == JoinSpaced(words[..n]) && lines[1..] == Layout(words[n..], "", width);
      assert n <= |words| && TakesWords(lines[0], words, n, width) && Greedy(words[n..], lines[1..], width);
    }
  }

  lemma NoLines(width: int)
    ensures Layout([], "", width) == []
  {
  }

  lemma FrontIsShorter(line: string, words: seq<string>, width: int)
    requires TakesFront(line, words, width)
    ensures line != "" && |line| < |words[0]|
  {
  }

  lemma TakesSome(words: seq<string>, n: nat, width: int)
    requires (forall w | w in words :: w != "") && n <= |words| && TakesWords(JoinSpaced(words[..n]), words, n, width)
    ensures n >= 1
  {
  }

  function Size(words: seq<string>): nat {
    if words == [] then 0 else |words[0]| + Size(words[1..])
  }

  lemma CutIsSmaller(line: string, words: seq<string>)
    requires words != [] && line != "" && |line| < |words[0]|
    ensures Size(CutWords(line, words)) < Size(words)
  {
    assert CutWords(line, words)[1..] == words[1..];
  }

  lemma {:induction false} FewerAreSmaller(words: seq<string>, n: nat)
    requires 1 <= n <= |words| && forall w | w in words :: w != ""
    ensures Size(words[n..]) < Size(words)
  {
    assert words[0] in words;
    if n > 1 {
      assert forall w | w in words[1..] :: w in words;
      FewerAreSmaller(words[1..], n - 1);
      assert words[1..][n - 1..] == words[n..];
    }
  }

  /** A greedy layout is the layout. */
  lemma {:induction false} GreedyIsLayout(words: seq<string>, lines: seq<string>, width: int)
    requires forall w | w in words :: w != ""
    requires Greedy(words, lines, width)
    ensures lines == Layout(words, "", width)
    decreases |lines|
  {
    hide Width, Layout, TakesWords, TakesFront;
    if lines == [] {
      NoLines(width);
      return;
    }
    assert lines == [lines[0]] + lines[1..];
    SomeWords(words, lines[0], width);
    if Width(words[0]) > width && Clipped(words[0], width) != "" {
      var line := Clipped(words[0], width);
      CutsWord(words, width);
      forall k: nat ensures !TakesWords(lines[0], words, k, width) {
        if TakesWords(lines[0], words, k, width) { WordsOrFront(words, lines[0], k, line, width); }
      }
      SameFront(words, lines[0], line, width);
      FrontIsShorter(line, words, width);
      StillWords(line, words);
      GreedyIsLayout(CutWords(line, words), lines[1..], width);
    } else {
      var n := KeepsWord(words, width);
      WordsOrFront(words, JoinSpaced(words[..n]), n, lines[0], width);
      var k: nat :| k <= |words| && TakesWords(lines[0], words, k, width) && Greedy(words[k..], lines[1..], width);
      SameWords(words, lines[0], k, JoinSpaced(words[..n]), n, width);
      assert forall w | w in words[n..] :: w in words;
      GreedyIsLayout(words[n..], lines[1..], width);
    }
  }

  lemma SomeWords(words: seq<string>, line: string, width: int)
    requires forall w | w in words :: w != ""
    requires (exists k: nat :: TakesWords(line, words, k, width)) || TakesFront(line, words, width)
    ensures words != []
  {
  }

  /** The layout of words is the one greedy layout of them. */
  lemma {:induction false} LayoutIffGreedy(words: seq<string>, lines: seq<string>, width: int)
    requires forall w | w in words :: w != ""
    ensures lines == Layout(words, "", width) <==> Greedy(words, lines, width)
  {
    hide Greedy, Layout;
    LayoutIsGreedy(words, width);
    if Greedy(words, lines, width) {
      GreedyIsLayout(words, lines, width);
    }
  }

  // ---------------------------------------------------------------- words that fit

  function Lines(groups: seq<seq<string>>): seq<string> {
    if groups == [] then [] else [JoinSpaced(groups[0])] + Lines(groups[1..])
  }

  function Flat(groups: seq<seq<string>>): seq<string> {
    if groups == [] then [] else groups[0] + Flat(groups[1..])
  }

  predicate NoRoom(line: seq<string>, next: seq<string>, width: int) {
    next != [] && Width(JoinSpaced(line) + " " + next[0]) > width
  }

  /** Each line fits, and no line could take the first word of the next one. */
  ghost predicate FullLines(groups: seq<seq<string>>, width: int) {
    && (forall g | g in groups :: g != [] && Width(JoinSpaced(g)) <= width)
    && (forall i, j | 0 <= i < j < |groups| && j == i + 1 :: NoRoom(groups[i], groups[j], width))
  }

  lemma FullLinesCons(groups: seq<seq<string>>, width: int)
    requires groups != []
    ensures FullLines(groups, width) <==>
              && groups[0] != [] && Width(JoinSpaced(groups[0])) <= width
              && (|groups| > 1 ==> NoRoom(groups[0], groups[1], width))
              && FullLines(groups[1..], width)
  {
    hide Width, JoinSpaced, NoRoom;
    var g, rest := groups[0], groups[1..];
    assert groups == [g] + rest;
    if FullLines(groups, width) {
      forall i, j | 0 <= i < j < |rest| && j == i + 1 ensures NoRoom(rest[i], rest[j], width) {
        assert rest[i] == groups[i + 1] && rest[j] == groups[j + 1];
      }
    }
    if g != [] && Width(JoinSpaced(g)) <= width && (rest != [] ==> NoRoom(g, rest[0], width)) && FullLines(rest, width) {
      forall i, j | 0 <= i < j < |groups| && j == i + 1 ensures NoRoom(groups[i], groups[j], width) {
        if i > 0 {
          assert rest[i - 1] == groups[i] && rest[j - 1] == groups[j];
        }
      }
    }
  }

  /** A split of words into full lines is the layout: there is no other. */
  lemma {:induction false} OnlyFullSplit(groups: seq<seq<string>>, width: int)
    requires (forall w | w in Flat(groups) :: w != "") && FullLines(groups, width)
    ensures Lines(groups) == Layout(Flat(groups), "", width)
  {
    FullLinesAreGreedy(groups, width);
    GreedyIsLayout(Flat(groups), Lines(groups), width);
  }

  lemma {:induction false} FullLinesAreGreedy(groups: seq<seq<string>>, width: int)
    requires FullLines(groups, width)
    ensures Greedy(Flat(groups), Lines(groups), width)
  {
    hide Width, JoinSpaced, FullLines;
    if groups != [] {
      var g, rest := groups[0], groups[1..];
      FullLinesCons(groups, width);
      FullLinesAreGreedy(rest, width);
      var words, lines := Flat(groups), Lines(groups);
      assert words == g + Flat(rest) && lines == [JoinSpaced(g)] + Lines(rest);
      assert words[..|g|] == g && words[|g|..] == Flat(rest) && lines[1..] == Lines(rest);
      if |g| < |words| {
        assert rest != [];
        FullLinesCons(rest, width);
        assert words[|g|] == Flat(rest)[0] == rest[0][0];
      }
      assert TakesWords(lines[0], words, |g|, width) && Greedy(words[|g|..], lines[1..], width);
    }
  }

  /** When every word fits, the layout is such a split. */
  lemma {:induction false} LayoutHasFullLines(words: seq<string>, width: int) returns (groups: seq<seq<string>>)
    requires forall w | w in words :: w != "" && Width(w) <= width
    ensures Flat(groups) == words && FullLines(groups, width) && Lines(groups) == Layout(words, "", width)
    decreases |words|
  {
    hide Width, JoinSpaced, Layout, FullLines, TakesWords;
    if words == [] {
      NoLines(width);
      assert FullLines([], width) by { NoGroups(width); }
      return [];
    }
    assert words[0] in words;
    var n := KeepsWord(words, width);
    TakesSome(words, n, width);
    assert forall w | w in words[n..] :: w in words;
    var rest := LayoutHasFullLines(words[n..], width);
    groups := [words[..n]] + rest;
    assert groups[1..] == rest && words == words[..n] + words[n..];
    TakesWordsFits(words, n, width);
    if rest != [] {
      FullLinesCons(rest, width);
      assert words[n..] == rest[0] + Flat(rest[1..]);
      assert words[n..][0] == rest[0][0];
      NoRoomFor(words, n, width);
    }
    FullLinesCons(groups, width);
  }

  lemma NoGroups(width: int)
    ensures FullLines([], width)
  {
  }

  lemma NoRoomFor(words: seq<string>, n: nat, width: int)
    requires n < |words| && TakesWords(JoinSpaced(words[..n]), words, n, width)
    ensures Width(JoinSpaced(words[..n]) + " " + words[n]) > width
  {
  }

  lemma TakesWordsFits(words: seq<string>, n: nat, width: int)
    requires words != [] && words[0] != "" && Width(words[0]) <= width
    requires n <= |words| && TakesWords(JoinSpaced(words[..n]), words, n, width)
    ensures Width(JoinSpaced(words[..n])) <= width
  {
    hide Width;
    if n == 1 {
      assert words[..1] == [words[0]];
      OneChar(words[0]);
      PrefixNoWider(words[0], 1, |words[0]|);
      assert words[0][..|words[0]|] == words[0];
    }
  }
}
