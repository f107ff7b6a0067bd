/** One text, cut in two ways: a line of two carriage returns separates blocks in one of them only. */
module SseExample {
  import opened Sse
  import opened SseReassembly
  import opened SseTheorems
  import opened SseSplit

  /**
   A line of two carriage returns after the line `a`. In one piece the text has no blank
   line; cut before its last character, the line is empty after the second read and the
   block `a` is delivered.
   */
  lemma {:induction false} CrCrLfDependsOnSplit(limit: nat)
    requires limit >= 8
    ensures Run(limit, Start, ["a\n\r\r\nx"]) == Stream([], "a\n\r\nx", false)
    ensures Run(limit, Start, ["a\n\r\r\n", "x"]) == Stream(["a"], "x", false)
    ensures Concat(["a\n\r\r\n", "x"]) == Concat(["a\n\r\r\nx"])
  {
    hide Run, Concat;
    TwoPieces("a\n\r\r\n", "x");
    OnePiece("a\n\r\r\nx");
    var half := Stream([], "a\n\r\n", false);
    ReadsThrough(limit, "x");
    ReadsThrough(limit, "");
    assert "a\n\r\r\n" + "x" == "a\n\r\r\nx" && "a\n\r\n" + "x" == "a\n\r\nx";
    assert "a\n\r\r\n" + "" == "a\n\r\r\n" && "a\n\r\n" + "" == "a\n\r\n";
    SecondReadCuts(limit);
    RunOne(limit, Start, "a\n\r\r\nx");
    RunOne(limit, half, "x");
    RunCons(limit, Start, ["a\n\r\r\n", "x"]);
    assert ["a\n\r\r\n", "x"][1..] == ["x"];
  }

  lemma RunOne(limit: nat, st: Stream, c: string)
    ensures Run(limit, st, [c]) == Read(limit, st, c)
  {
    assert [c][1..] == [];
  }

  /** The first read of the text, whole or without its last character, finds no blank line. */
  lemma ReadsThrough(limit: nat, end: string)
    requires limit >= 8 && (end == "" || end == "x")
    ensures Read(limit, Start, "a\n\r\r\n" + end) == Stream([], "a\n\r\n" + end, false)
  {
    hide Utf8Size, Normalize;
    var c, n := "a\n\r\r\n" + end, "a\n\r\n" + end;
    assert "" + c == c;
    Normalized(end);
    forall k ensures !BlankAt(n, k) {
    }
    SizeOfFew(n);
  }

  /** Up to eight ASCII characters. */
  lemma SizeOfFew(s: string)
    requires |s| <= 8 && forall c | c in s :: CharSize(c) == 1
    ensures Utf8Size(s) <= 8
  {
    AsciiSize(s);
  }

  lemma {:induction false} AsciiSize(s: string)
    requires forall c | c in s :: CharSize(c) == 1
    ensures Utf8Size(s) == |s|
  {
    if s != "" {
      assert s[0] in s && forall c | c in s[1..] :: c in s;
      AsciiSize(s[1..]);
    }
  }

  lemma Normalized(end: string)
    requires end == "" || end == "x"
    ensures Normalize("a\n\r\r\n" + end) == "a\n\r\n" + end
    ensures Normalize("a\n\r\n" + end) == "a\n\n" + end
  {
    hide Normalize;
    assert Normalize(end) == end by { NormalizeNothing(); NormalizeCons('x', ""); assert ['x'] + "" == "x"; }
    NormalizeCrLf(end);
    NormalizeCons('\r', "\r\n" + end);
    NormalizeCons('\n', "\r\r\n" + end);
    NormalizeCons('\n', "\r\n" + end);
    NormalizeCons('a', "\n\r\r\n" + end);
    NormalizeCons('a', "\n\r\n" + end);
    assert ['\r'] + ("\r\n" + end) == "\r\r\n" + end;
    assert ['\n'] + ("\r\r\n" + end) == "\n\r\r\n" + end && ['a'] + ("\n\r\r\n" + end) == "a\n\r\r\n" + end;
    assert ['\n'] + ("\r\n" + end) == "\n\r\n" + end && ['a'] + ("\n\r\n" + end) == "a\n\r\n" + end;
    assert ['a'] + (['\n'] + (['\r'] + ("\n" + end))) == "a\n\r\n" + end;
    assert ['a'] + (['\n'] + ("\n" + end)) == "a\n\n" + end;
  }

  lemma SecondReadCuts(limit: nat)
    requires limit >= 8
    ensures Read(limit, Stream([], "a\n\r\n", false), "x") == Stream(["a"], "x", false)
  {
    hide Utf8Size, Normalize;
    Normalized("x");
    var n := "a\n\nx";
    assert "a\n\r\n" + "x" == "a\n\r\nx" && "a\n\n" + "x" == n;
    assert BlankAt(n, 1) && !BlankAt(n, 0);
    FirstBlankIs(n, 1);
    assert n[..1] == "a" && n[3..] == "x";
    SizeOfFew("a");
    SizeOfFew("x");
    assert FirstBlank("x") == -1;
  }
}
