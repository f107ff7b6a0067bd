/** What wrapping keeps of a text, when its lines fit, and where it breaks them. */
module TextWrapProperties {
  import opened JsText
  import opened TextLayout
  import opened TextWrap

  // ---------------------------------------------------------------- content

  lemma {:induction false} JoinAppend(a: seq<string>, b: seq<string>)
    ensures Join(a + b) == Join(a) + Join(b)
  {
    if a == [] {
      assert a + b == b;
    } else {
      JoinAppend(a[1..], b);
      assert a + b == [a[0]] + (a[1..] + b);
      JoinCons(a[0], a[1..] + b);
      assert a[0] + (Join(a[1..]) + Join(b)) == (a[0] + Join(a[1..])) + Join(b);
    }
  }

  lemma {:induction false} ChunksAreThePiece(piece: string, width: int)
    ensures Join(Chunks(piece, width)) + Remainder(piece, width) == piece
    decreases |piece|
  {
    hide Width;
    var chunk := Clipped(piece, width);
    if Width(piece) > width && chunk != "" {
      var rest := piece[|chunk|..];
      ChunksAreThePiece(rest, width);
      JoinCons(chunk, Chunks(rest, width));
      Regroup(chunk, Join(Chunks(rest, width)), Remainder(rest, width));
      assert chunk + rest == piece;
    }
  }

  lemma InkOfPiece(current: string, word: string, width: int)
    ensures Ink(Join(Finished(current, word, width))) + Ink(Piece(current, word, width)) == Ink(current) + Ink(word)
  {
    hide Width;
    if Overflows(current, word, width) {
      JoinCons(current, []);
      assert [current] + [] == [current] && current + "" == current;
    } else if current != "" {
      assert Ink(" ") == "" by { assert IsSpace(' ') && " "[1..] == ""; }
      InkOfSpaced(current, word);
    }
  }

  lemma InkOfSpaced(current: string, word: string)
    requires Ink(" ") == ""
    ensures Ink(current + " " + word) == Ink(current) + Ink(word)
  {
    hide Ink;
    InkAppend(current + " ", word);
    InkAppend(current, " ");
    assert Ink(current) + "" == Ink(current);
  }

  lemma InkOfTurn(current: string, word: string, width: int)
    ensures var piece := Piece(current, word, width);
            Ink(Join(Finished(current, word, width))) + Ink(Join(Chunks(piece, width))) + Ink(Remainder(piece, width))
            == Ink(current) + Ink(word)
  {
    hide Chunks, Remainder, Width, Ink, Join, Finished, Piece;
    var piece := Piece(current, word, width);
    ChunksAreThePiece(piece, width);
    InkAppend(Join(Chunks(piece, width)), Remainder(piece, width));
    InkOfPiece(current, word, width);
    Regroup(Ink(Join(Finished(current, word, width))), Ink(Join(Chunks(piece, width))), Ink(Remainder(piece, width)));
  }

  /** No ink is lost, repeated or reordered by the layout. */
  lemma {:induction false} LayoutKeepsInk(words: seq<string>, current: string, width: int)
    ensures Ink(Join(Layout(words, current, width))) == Ink(current) + Ink(Join(words))
    decreases |words|
  {
    if words == [] {
      JoinCons(current, []);
      assert [current] + [] == [current] && current + "" == current;
    } else {
      var word, later := words[0], words[1..];
      var piece := Piece(current, word, width);
      var f, c := Finished(current, word, width), Chunks(piece, width);
      var r := Remainder(piece, width);
      LayoutKeepsInk(later, r, width);
      InkOfTurn(current, word, width);
      InkOfThree(f, c, Layout(later, r, width));
      InkAppend(word, Join(later));
      Regroup(Ink(Join(f)) + Ink(Join(c)), Ink(r), Ink(Join(later)));
      Regroup(Ink(current), Ink(word), Ink(Join(later)));
    }
  }

  lemma InkOfThree(a: seq<string>, b: seq<string>, c: seq<string>)
    ensures Ink(Join(a + b + c)) == Ink(Join(a)) + Ink(Join(b)) + Ink(Join(c))
  {
    JoinAppend(a + b, c);
    JoinAppend(a, b);
    InkAppend(Join(a) + Join(b), Join(c));
    InkAppend(Join(a), Join(b));
  }

  lemma {:induction false} InkTwice(s: string)
    ensures Ink(Ink(s)) == Ink(s)
  {
    if s != "" {
      InkTwice(s[1..]);
      InkAppend(InkOf(s[0]), Ink(s[1..]));
      assert Ink(InkOf(s[0])) == InkOf(s[0]) by { assert [s[0]][1..] == ""; }
    }
  }

  lemma {:induction false} FullLayoutKeepsInk(value: string, width: int)
    ensures Ink(Join(FullLayout(value, width))) == Ink(value)
  {
    LayoutKeepsInk(SplitWords(value), "", width);
    WordsAreInk(value);
    InkTwice(value);
    assert "" + Ink(value) == Ink(value);
  }

  // ---------------------------------------------------------------- fit

  predicate LinesFit(lines: seq<string>, width: int) {
    forall l | l in lines :: Width(l) <= width
  }

  /** Every character can stand on a line by itself. */
  predicate CharsFit(s: string, width: int) {
    forall c | c in s :: CharWidth(c) <= width
  }

  lemma CharsFitSlice(s: string, k: nat, width: int)
    requires CharsFit(s, width) && k <= |s|
    ensures CharsFit(s[k..], width)
  {
  }

  lemma {:induction false} ChunksFit(piece: string, width: int)
    requires CharsFit(piece, width)
    ensures LinesFit(Chunks(piece, width), width) && (forall l | l in Chunks(piece, width) :: l != "")
    ensures Remainder(piece, width) == "" || Width(Remainder(piece, width)) <= width
    decreases |piece|
  {
    var chunk := Clipped(piece, width);
    if Width(piece) > width {
      if piece != "" { assert piece[0] in piece; }
      ClipIsLongest(piece, width, 0);
      if chunk != "" {
        CharsFitSlice(piece, |chunk|, width);
        ChunksFit(piece[|chunk|..], width);
      }
    }
  }

  lemma {:induction false} LayoutFits(words: seq<string>, current: string, width: int)
    requires forall w | w in words :: CharsFit(w, width)
    requires current == "" || Width(current) <= width
    ensures LinesFit(Layout(words, current, width), width)
    ensures forall l | l in Layout(words, current, width) :: l != ""
    decreases |words|
  {
    if words != [] {
      var word := words[0];
      assert word in words;
      var piece := Piece(current, word, width);
      if Overflows(current, word, width) || current == "" {
        ChunksFit(word, width);
      }
      LayoutFits(words[1..], Remainder(piece, width), width);
    }
  }

  lemma {:induction false} CharInLine(lines: seq<string>, c: char)
    requires c in Ink(Join(lines))
    ensures exists l | l in lines :: c in l
  {
    if lines != [] {
      InkAppend(lines[0], Join(lines[1..]));
      if c in Ink(lines[0]) {
        InkIsPart(lines[0], c);
        assert lines[0] in lines;
      } else {
        CharInLine(lines[1..], c);
      }
    }
  }

  lemma {:induction false} InkIsPart(s: string, c: char)
    ensures c in Ink(s) <==> c in s && !IsSpace(c)
  {
    if s != "" { InkIsPart(s[1..], c); }
  }

  lemma {:induction false} CharNoWider(s: string, c: char)
    requires c in s
    ensures CharWidth(c) <= Width(s)
  {
    if c != s[0] { CharNoWider(s[1..], c); }
  }

  lemma {:induction false} CharInWord(words: seq<string>, w: string, c: char)
    requires w in words && c in w
    ensures c in Join(words)
  {
    if w != words[0] {
      CharInWord(words[1..], w, c);
    }
  }

  /** All lines of the layout fit exactly when every visible character fits on a line by itself. */
  lemma {:induction false} FullLayoutFitsIff(value: string, width: int)
    ensures LinesFit(FullLayout(value, width), width) <==> CharsFit(Ink(value), width)
  {
    if CharsFit(Ink(value), width) {
      var words := SplitWords(value);
      WordsAreInk(value);
      forall w | w in words ensures CharsFit(w, width) {
        forall c | c in w ensures CharWidth(c) <= width {
          CharInWord(words, w, c);
        }
      }
      LayoutFits(words, "", width);
    }
    if LinesFit(FullLayout(value, width), width) {
      FullLayoutKeepsInk(value, width);
      forall c | c in Ink(value) ensures CharWidth(c) <= width {
        CharInLine(FullLayout(value, width), c);
        var l :| l in FullLayout(value, width) && c in l;
        CharNoWider(l, c);
      }
    }
  }

  // ---------------------------------------------------------------- the wrapped text

  lemma TakePrefix(lines: seq<string>, n: int)
    ensures var t := Take(lines, n);
            && t <= lines
            && |t| <= Max(0, n)
            && (|t| < n ==> t == lines)
  {
  }

  /**
   The wrapped lines respect the limit and carry a prefix of the text's ink, all of it when
   there are fewer lines than the limit. They fit whenever every visible character does,
   as at any width of two or more; a text shown in full fits only then.
   */
  lemma {:induction false} WrapIsFaithful(value: string, width: int, maxLines: int)
    ensures var lines := Take(FullLayout(value, width), maxLines);
            && |lines| <= Max(0, maxLines)
            && Ink(Join(lines)) <= Ink(value)
            && (|lines| < maxLines ==> Ink(Join(lines)) == Ink(value))
            && (width >= 2 || CharsFit(Ink(value), width) ==> LinesFit(lines, width))
            && (|lines| < maxLines ==> (LinesFit(lines, width) <==> CharsFit(Ink(value), width)))
  {
    var full := FullLayout(value, width);
    var lines := Take(full, maxLines);
    TakePrefix(full, maxLines);
    FullLayoutKeepsInk(value, width);
    FullLayoutFitsIff(value, width);
    assert full == lines + full[|lines|..];
    JoinAppend(lines, full[|lines|..]);
    InkAppend(Join(lines), Join(full[|lines|..]));
  }

  /** At a width below two some one-character text does not fit: two columns are exactly what wrapping needs. */
  lemma {:induction false} WrapFitsEverythingIff(width: int)
    ensures (forall value, maxLines :: LinesFit(Take(FullLayout(value, width), maxLines), width)) <==> width >= 2
  {
    if width >= 2 {
      forall value, maxLines ensures LinesFit(Take(FullLayout(value, width), maxLines), width) {
        WrapIsFaithful(value, width, maxLines);
      }
    } else {
      var value := "\U{AC00}";
      WrapIsFaithful(value, width, |FullLayout(value, width)| + 1);
      assert value[0] in Ink(value) by { InkIsPart(value, value[0]); }
      assert !LinesFit(Take(FullLayout(value, width), |FullLayout(value, width)| + 1), width);
    }
  }

  // ---------------------------------------------------------------- where lines break

  function JoinSpaced(parts: seq<string>): string {
    if parts == [] then ""
    else if |parts| == 1 then parts[0]
    else parts[0] + " " + JoinSpaced(parts[1..])
  }

  function Begun(current: string): seq<string> {
    if current == "" then [] else [current]
  }

  lemma LayoutOfFittingWord(word: string, rest: seq<string>, current: string, width: int)
    requires word != "" && Width(word) <= width
    ensures var piece := Piece(current, word, width);
            && piece != ""
            && Layout([word] + rest, current, width) == Finished(current, word, width) + Layout(rest, piece, width)
  {
    var piece := Piece(current, word, width);
    assert Width(piece) <= width;
    assert Chunks(piece, width) == [] && Remainder(piece, width) == piece;
    assert ([word] + rest)[1..] == rest;
    assert Finished(current, word, width) + [] == Finished(current, word, width);
  }

  lemma {:induction false} LayoutBreaksAtSpaces(words: seq<string>, current: string, width: int)
    requires forall w | w in words :: w != "" && Width(w) <= width
    ensures JoinSpaced(Layout(words, current, width)) == JoinSpaced(Begun(current) + words)
    ensures words != [] || current != "" ==> Layout(words, current, width) != []
    decreases |words|
  {
    if words == [] {
      assert Begun(current) + words == Begun(current);
    } else {
      var word, rest := words[0], words[1..];
      assert word in words;
      assert [word] + rest == words;
      assert forall w | w in rest :: w in words;
      var piece := Piece(current, word, width);
      LayoutOfFittingWord(word, rest, current, width);
      LayoutBreaksAtSpaces(rest, piece, width);
      OneMoreWord(current, word, rest, Layout(rest, piece, width), width);
    }
  }

  lemma OneMoreWord(current: string, word: string, rest: seq<string>, lines: seq<string>, width: int)
    requires word != "" && lines != []
    requires JoinSpaced(lines) == JoinSpaced([Piece(current, word, width)] + rest)
    ensures JoinSpaced(Finished(current, word, width) + lines) == JoinSpaced(Begun(current) + ([word] + rest))
  {
    if Overflows(current, word, width) {
      assert ([current] + lines)[1..] == lines && ([current] + ([word] + rest))[1..] == [word] + rest;
    } else {
      assert [] + lines == lines;
      if current == "" {
        assert [] + ([word] + rest) == [word] + rest;
      } else {
        SpacedPair(current, word, rest);
      }
    }
  }

  lemma SpacedPair(a: string, b: string, rest: seq<string>)
    ensures JoinSpaced([a + " " + b] + rest) == JoinSpaced([a] + ([b] + rest))
  {
    assert ([a] + ([b] + rest))[1..] == [b] + rest;
    assert ([b] + rest)[1..] == rest && ([a + " " + b] + rest)[1..] == rest;
    if rest != [] {
      assert (a + " " + b) + " " + JoinSpaced(rest) == a + " " + (b + " " + JoinSpaced(rest));
    }
  }

  /** When every word fits, the lines joined with spaces are the words joined with spaces: only separators become breaks. */
  lemma {:induction false} BreaksOnlyBetweenWords(value: string, width: int)
    requires forall w | w in SplitWords(value) :: w != "" && Width(w) <= width
    ensures JoinSpaced(FullLayout(value, width)) == JoinSpaced(SplitWords(value))
  {
    LayoutBreaksAtSpaces(SplitWords(value), "", width);
    assert Begun("") + SplitWords(value) == SplitWords(value);
  }
}
