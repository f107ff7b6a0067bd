/**
 What holds of every text, and exactly which texts are read alike however they are cut.
 Normalization runs over the retained buffer again at each read, so a line that ends in
 two carriage returns loses a different number of them under different splits.
 */
module SseSplit {
  import opened Sse
  import opened SseReassembly
  import opened SseTheorems

  /** The text taken so far: the blocks with their blank lines, then the retained buffer. */
  function Content(st: Stream): string {
    Rejoin(st.blocks) + st.buffer
  }

  // ---------------------------------------------------------------- text up to carriage returns before a line feed

  /** The text starts with carriage returns, possibly none, and then a line feed. */
  predicate RunsToLf(s: string) {
    s != "" && (s[0] == '\n' || (s[0] == '\r' && RunsToLf(s[1..])))
  }

  /** The text without the carriage returns that stand right before a line feed. */
  function Collapse(s: string): string {
    if s == "" then ""
    else if s[0] == '\r' && RunsToLf(s[1..]) then Collapse(s[1..])
    else [s[0]] + Collapse(s[1..])
  }

  lemma Cons(c: char, s: string)
    ensures ([c] + s)[0] == c && ([c] + s)[1..] == s
  {
  }

  lemma {:induction false} CollapseNormalize(s: string)
    ensures RunsToLf(Normalize(s)) == RunsToLf(s)
    ensures Collapse(Normalize(s)) == Collapse(s)
    decreases |s|
  {
    if s == "" {
    } else if |s| >= 2 && s[0] == '\r' && s[1] == '\n' {
      CollapseNormalize(s[2..]);
      Cons('\n', Normalize(s[2..]));
      assert s[1..][1..] == s[2..];
    } else {
      CollapseNormalize(s[1..]);
      Cons(s[0], Normalize(s[1..]));
    }
  }

  lemma {:induction false} RunsToLfAppend(x: string, c: string)
    ensures RunsToLf(Collapse(x) + c) == RunsToLf(x + c)
    ensures RunsToLf(x) ==> RunsToLf(x + c)
  {
    if x != "" {
      RunsToLfAppend(x[1..], c);
      assert x + c == [x[0]] + (x[1..] + c);
      Cons(x[0], x[1..] + c);
      Assoc([x[0]], Collapse(x[1..]), c);
      Cons(x[0], Collapse(x[1..]) + c);
    }
  }

  lemma {:induction false} CollapseAppend(x: string, c: string)
    ensures Collapse(Collapse(x) + c) == Collapse(x + c)
  {
    if x != "" {
      CollapseAppend(x[1..], c);
      RunsToLfAppend(x[1..], c);
      assert x + c == [x[0]] + (x[1..] + c);
      Cons(x[0], x[1..] + c);
      Assoc([x[0]], Collapse(x[1..]), c);
      Cons(x[0], Collapse(x[1..]) + c);
    }
  }

  lemma {:induction false} CollapseClosed(j: string, z: string)
    requires Closed(j)
    ensures Collapse(j + z) == Collapse(j) + Collapse(z)
    ensures j != "" ==> RunsToLf(j + z) == RunsToLf(j)
  {
    if j == "" {
      assert j + z == z;
    } else {
      CollapseClosed(j[1..], z);
      assert j + z == [j[0]] + (j[1..] + z);
      Cons(j[0], j[1..] + z);
      Assoc([j[0]], Collapse(j[1..]), Collapse(z));
    }
  }

  // ---------------------------------------------------------------- conservation

  lemma {:induction false} CutKeepsContent(limit: nat, st: Stream)
    requires !Cut(limit, st).failed
    ensures Content(Cut(limit, st)) == Content(st)
    decreases |st.buffer|
  {
    var i := FirstBlank(st.buffer);
    if i != -1 {
      var block, rest := st.buffer[..i], st.buffer[i + 2..];
      CutKeepsContent(limit, Stream(st.blocks + [block], rest, false));
      RejoinShape(st.blocks, [block]);
      RejoinOne(block);
      FirstBlock(st.buffer);
      Assoc(Rejoin(st.blocks), block + "\n\n", rest);
    }
  }

  lemma RejoinOne(block: string)
    ensures Rejoin([block]) == block + "\n\n"
  {
    assert [block][1..] == [] && block + "\n\n" + "" == block + "\n\n";
  }

  lemma ReadContent(limit: nat, st: Stream, c: string)
    requires !st.failed && !Read(limit, st, c).failed
    ensures Content(Read(limit, st, c)) == Rejoin(st.blocks) + Normalize(st.buffer + c)
    ensures Collapse(Content(Read(limit, st, c))) == Collapse(Content(st) + c)
  {
    var j, y := Rejoin(st.blocks), st.buffer + c;
    CutKeepsContent(limit, st.(buffer := Normalize(y)));
    RejoinShape(st.blocks, []);
    CollapseClosed(j, Normalize(y));
    CollapseNormalize(y);
    CollapseClosed(j, y);
    Assoc(j, st.buffer, c);
  }

  lemma {:induction false} RunConserves(limit: nat, st: Stream, chunks: seq<string>)
    requires !st.failed && !Run(limit, st, chunks).failed
    ensures Collapse(Content(Run(limit, st, chunks))) == Collapse(Content(st) + Concat(chunks))
    decreases |chunks|
  {
    if chunks == [] {
      assert Content(st) + "" == Content(st);
    } else {
      var c, rest := chunks[0], chunks[1..];
      var mid := Read(limit, st, c);
      if mid.failed {
        RunFailed(limit, mid, rest);
        assert false;
      }
      ReadContent(limit, st, c);
      RunConserves(limit, mid, rest);
      CollapseAppend(Content(mid), Concat(rest));
      CollapseAppend(Content(st) + c, Concat(rest));
      Assoc(Content(st), c, Concat(rest));
    }
  }

  /**
   Whatever the text and however it is cut, nothing is lost, repeated or reordered: the
   delivered blocks and the retained rest are the text, up to carriage returns before a
   line feed.
   */
  lemma {:induction false} TextIsConserved(limit: nat, chunks: seq<string>)
    requires !Run(limit, Start, chunks).failed
    ensures Collapse(Content(Run(limit, Start, chunks))) == Collapse(Concat(chunks))
  {
    RunConserves(limit, Start, chunks);
    assert Content(Start) == "" && "" + Concat(chunks) == Concat(chunks);
  }

  // ---------------------------------------------------------------- no size error

  lemma {:induction false} CutFits(limit: nat, st: Stream)
    requires !st.failed && Utf8Size(st.buffer) <= limit
    ensures !Cut(limit, st).failed && Utf8Size(Cut(limit, st).buffer) <= Utf8Size(st.buffer)
    ensures FirstBlank(Cut(limit, st).buffer) == -1
    decreases |st.buffer|
  {
    var i := FirstBlank(st.buffer);
    if i != -1 {
      SizeTake(st.buffer, i);
      SizeTake(st.buffer, i + 2);
      CutFits(limit, Stream(st.blocks + [st.buffer[..i]], st.buffer[i + 2..], false));
    }
  }

  lemma {:induction false} RunFits(limit: nat, st: Stream, chunks: seq<string>)
    requires !st.failed && Utf8Size(st.buffer) + Utf8Size(Concat(chunks)) <= limit
    ensures !Run(limit, st, chunks).failed
    ensures chunks != [] ==> FirstBlank(Run(limit, st, chunks).buffer) == -1
    decreases |chunks|
  {
    if chunks != [] {
      var c, rest := chunks[0], chunks[1..];
      SizeAppend(c, Concat(rest));
      SizeAppend(st.buffer, c);
      NormalizeShrinks(st.buffer + c);
      CutFits(limit, st.(buffer := Normalize(st.buffer + c)));
      RunFits(limit, Read(limit, st, c), rest);
    }
  }

  /** Short texts are accepted under every split; longer ones are if their blocks and rests fit. */
  lemma ShortTextAccepted(limit: nat, text: string)
    requires Utf8Size(text) <= limit
    ensures AcceptedEverywhere(limit, text)
  {
    forall chunks | Concat(chunks) == text ensures !Run(limit, Start, chunks).failed {
      RunFits(limit, Start, chunks);
    }
  }

  // ---------------------------------------------------------------- a split that reads differently

  /** Cut right after the offending line. The second chunk is empty if nothing follows that line. */
  function OddSplit(text: string, i: nat): seq<string>
    requires CrCrLfAt(text, i)
  {
    [text[..i + 3], text[i + 3..]]
  }

  lemma OddSplitText(text: string, i: nat)
    requires CrCrLfAt(text, i)
    ensures Concat(OddSplit(text, i)) == text
  {
    TwoPieces(text[..i + 3], text[i + 3..]);
    assert text[..i + 3] + text[i + 3..] == text;
  }

  predicate EndsInCrLf(s: string) {
    |s| >= 2 && s[|s| - 2] == '\r' && s[|s| - 1] == '\n'
  }

  lemma NormalizeEndsInCrLf(y: string)
    ensures EndsInCrLf(Normalize(y + "\r\r\n"))
  {
    assert y + "\r\r\n" == (y + "\r") + "\r\n";
    NormalizeAppend(y + "\r", "\r\n");
    NormalizeAppend(y, "\r");
    NormalizeCrLf("");
    assert "\r\n" + "" == "\r\n" && Normalize("\r") == "\r";
  }

  lemma TailEndsInCrLf(n: string)
    requires EndsInCrLf(n)
    ensures EndsInCrLf(Tail(n))
  {
    var j, b := Rejoin(Complete(n)), Tail(n);
    TextIsRejoinTail(n);
    RejoinEnds(Complete(n));
    assert n[|n| - 2] == '\r';
  }

  /** Right after the offending line the buffer ends in CRLF, so the next read shortens it. */
  lemma BufferEndsInCrLf(text: string, i: nat)
    requires CrCrLfAt(text, i)
    ensures EndsInCrLf(Tail(Normalize(text[..i + 3])))
  {
    assert text[..i + 3] == text[..i] + "\r\r\n";
    NormalizeEndsInCrLf(text[..i]);
    TailEndsInCrLf(Normalize(text[..i + 3]));
  }

  lemma {:induction false} RejoinEnds(blocks: seq<string>)
    ensures blocks == [] || (|Rejoin(blocks)| >= 2 && Rejoin(blocks)[|Rejoin(blocks)| - 2..] == "\n\n")
  {
    if blocks != [] {
      RejoinEnds(blocks[1..]);
    }
  }

  lemma ShrinksAtCrLf(b: string)
    requires EndsInCrLf(b)
    ensures |Normalize(b)| < |b|
  {
    var x := b[..|b| - 2];
    assert b == x + "\r\n";
    NormalizeAppend(x, "\r\n");
    NormalizeShrinks(x);
    NormalizeCrLf("");
    assert "\r\n" + "" == "\r\n";
  }

  /** A single read of the whole text leaves the one-shot parse. */
  lemma OneRead(limit: nat, text: string)
    requires !Run(limit, Start, [text]).failed
    ensures Run(limit, Start, [text]) == Stream(Complete(Normalize(text)), Tail(Normalize(text)), false)
    ensures Content(Run(limit, Start, [text])) == Normalize(text)
  {
    var n := Normalize(text);
    assert "" + text == text && [text][1..] == [];
    CutIsComplete(limit, Start.(buffer := n));
    assert Run(limit, Start, [text]) == Read(limit, Start, text);
    assert Complete(n)[..|Complete(n)|] == Complete(n) && [] + Complete(n) == Complete(n);
    TextIsRejoinTail(n);
  }

  lemma RunCons(limit: nat, st: Stream, chunks: seq<string>)
    requires chunks != []
    ensures Run(limit, st, chunks) == Run(limit, Read(limit, st, chunks[0]), chunks[1..])
  {
  }

  lemma RunTwo(limit: nat, a: string, r: string)
    ensures Run(limit, Start, [a, r]) == Read(limit, Run(limit, Start, [a]), r)
  {
    hide Read;
    RunCons(limit, Start, [a, r]);
    RunCons(limit, Start, [a]);
    RunCons(limit, Read(limit, Start, a), [r]);
    assert [a, r][1..] == [r] && [a][1..] == [] && [r][1..] == [];
  }

  /** The odd split loses a character that the single read keeps. */
  lemma OddSplitIsShorter(limit: nat, text: string, i: nat)
    requires CrCrLfAt(text, i) && !Run(limit, Start, OddSplit(text, i)).failed
    ensures |Content(Run(limit, Start, OddSplit(text, i)))| < |Normalize(text)|
  {
    hide Run, Normalize, Complete, Tail, Cut, Rejoin, Collapse, EndsInCrLf;
    var a, r := text[..i + 3], text[i + 3..];
    RunTwo(limit, a, r);
    var s1 := Run(limit, Start, [a]);
    assert !s1.failed;
    OneRead(limit, a);
    BufferEndsInCrLf(text, i);
    ReadContent(limit, s1, r);
    SecondReadShrinks(s1.buffer, r);
    NormalizeAppend(a, r);
    assert a + r == text;
  }

  lemma SecondReadShrinks(b: string, r: string)
    requires EndsInCrLf(b)
    ensures |Normalize(b + r)| < |b| + |Normalize(r)|
  {
    ShrinksAtCrLf(b);
    NormalizeAppend(b, r);
  }

  // ---------------------------------------------------------------- a line of that kind at the very end

  predicate NonEmpty(chunks: seq<string>) {
    forall c | c in chunks :: c != ""
  }

  /** Nothing follows a line that ends in two carriage returns. */
  ghost predicate OnlyAtEnd(text: string) {
    forall i | CrCrLfAt(text, i) :: i + 3 == |text|
  }

  lemma NormalizeLastCr(v: string)
    ensures Normalize(v + "\r") == Normalize(v) + "\r"
    ensures Normalize(v + "\r\n") == Normalize(v) + "\n"
  {
    NormalizeAppend(v, "\r");
    NormalizeAppend(v, "\r\n");
    NormalizeCrLf("");
    assert "\r\n" + "" == "\r\n" && Normalize("\r") == "\r";
  }

  lemma NormalizeLfAfterCr(w: string)
    requires w != "" && w[|w| - 1] == '\r'
    ensures var n := Normalize(w);
            n != "" && n[|n| - 1] == '\r' && Normalize(w + "\n") == n[..|n| - 1] + "\n"
  {
    var v := w[..|w| - 1];
    NormalizeLastCr(v);
    assert w == v + "\r" && w + "\n" == v + "\r\n";
  }

  /** Normalizing twice is still normalizing once if only the last chunk completes such a line. */
  lemma NormalizeAgainAtEnd(p: string, c: string)
    requires c != "" && OnlyAtEnd(p + c)
    ensures NoCrCrLf(p) && Normalize(Normalize(p) + c) == Normalize(p + c)
  {
    var c' := c[..|c| - 1];
    assert p + c' == (p + c)[..|p + c| - 1];
    forall i ensures !CrCrLfAt(p + c', i) {
      assert CrCrLfAt(p + c', i) ==> CrCrLfAt(p + c, i);
    }
    NoCrCrLfTake(p + c', |p|);
    assert (p + c')[..|p|] == p;
    if i :| CrCrLfAt(p + c, i) {
      NormalizeAgain(p, c');
      LastLfAgain(p, c');
      assert c == c' + "\n";
      Assoc(p, c', "\n");
      Assoc(Normalize(p), c', "\n");
    } else {
      NormalizeAgain(p, c);
    }
  }

  lemma LastLfAgain(p: string, c: string)
    requires p + c != "" && (p + c)[|p + c| - 1] == '\r'
    requires Normalize(Normalize(p) + c) == Normalize(p + c)
    ensures Normalize((Normalize(p) + c) + "\n") == Normalize((p + c) + "\n")
  {
    NormalizeLfAfterCr(p + c);
    if c == "" {
      assert p + c == p && Normalize(p) + c == Normalize(p);
    }
    NormalizeLfAfterCr(Normalize(p) + c);
  }

  lemma {:induction false} RunSnoc(limit: nat, st: Stream, chunks: seq<string>, c: string)
    ensures Run(limit, st, chunks + [c]) == Read(limit, Run(limit, st, chunks), c)
    decreases |chunks|
  {
    hide Read;
    if chunks == [] {
      assert [] + [c] == [c] && [c][1..] == [];
      RunCons(limit, st, [c]);
    } else {
      RunCons(limit, st, chunks + [c]);
      RunCons(limit, st, chunks);
      assert (chunks + [c])[1..] == chunks[1..] + [c];
      RunSnoc(limit, Read(limit, st, chunks[0]), chunks[1..], c);
    }
  }

  /** Without empty reads such a text is delivered as in one piece. */
  lemma NonEmptyReadsAreOneShot(limit: nat, front: seq<string>, c: string)
    requires c != "" && OnlyAtEnd(Concat(front) + c) && !Run(limit, Start, front + [c]).failed
    ensures Matches(Run(limit, Start, front + [c]), Concat(front) + c)
  {
    hide Complete, Normalize, Tail, Utf8Size;
    var p := Concat(front);
    NormalizeAgainAtEnd(p, c);
    RunSnoc(limit, Start, front, c);
    var st := Run(limit, Start, front);
    assert !st.failed;
    StreamIsOneShot(limit, front);
    ReadStepBy(limit, st, p, c);
  }

  // ---------------------------------------------------------------- the exact conditions

  ghost predicate SameUnderEverySplit(limit: nat, text: string) {
    forall chunks :: Concat(chunks) == text && chunks != [] ==> Run(limit, Start, chunks) == Run(limit, Start, [text])
  }

  ghost predicate SameUnderNonEmptySplits(limit: nat, text: string) {
    forall chunks :: Concat(chunks) == text && chunks != [] && NonEmpty(chunks) ==>
      Run(limit, Start, chunks) == Run(limit, Start, [text])
  }

  lemma OddSplitDiffers(limit: nat, text: string, i: nat)
    requires AcceptedEverywhere(limit, text) && CrCrLfAt(text, i)
    ensures Run(limit, Start, OddSplit(text, i)) != Run(limit, Start, [text])
  {
    hide Run, Normalize, Concat;
    OnePiece(text);
    OddSplitText(text, i);
    OneRead(limit, text);
    OddSplitIsShorter(limit, text, i);
  }

  /**
   For every text that meets no size error, however long: all ways of cutting it leave the
   same blocks and the same retained rest exactly when no line of it ends in two carriage
   returns.
   */
  lemma {:induction false} SameUnderEverySplitIff(limit: nat, text: string)
    requires AcceptedEverywhere(limit, text)
    ensures SameUnderEverySplit(limit, text) <==> NoCrCrLf(text)
  {
    hide Run, Normalize, Concat, Complete, Tail;
    OnePiece(text);
    if NoCrCrLf(text) {
      OneRead(limit, text);
      forall chunks | Concat(chunks) == text && chunks != []
        ensures Run(limit, Start, chunks) == Run(limit, Start, [text])
      {
        StreamIsOneShot(limit, chunks);
      }
    } else {
      var i :| CrCrLfAt(text, i);
      OddSplitText(text, i);
      OddSplitDiffers(limit, text, i);
    }
  }

  /**
   The same for streams without empty reads: there the offending line must be followed by
   another character, since nothing reads the buffer again after the last one.
   */
  lemma {:induction false} SameUnderNonEmptySplitsIff(limit: nat, text: string)
    requires AcceptedEverywhere(limit, text)
    ensures SameUnderNonEmptySplits(limit, text) <==> OnlyAtEnd(text)
  {
    hide Run, Normalize, Concat, Complete, Tail;
    OnePiece(text);
    if OnlyAtEnd(text) {
      OneRead(limit, text);
      forall chunks | Concat(chunks) == text && chunks != [] && NonEmpty(chunks)
        ensures Run(limit, Start, chunks) == Run(limit, Start, [text])
      {
        var front, c := chunks[..|chunks| - 1], chunks[|chunks| - 1];
        ConcatSplit(chunks, |chunks| - 1);
        assert chunks[|chunks| - 1..] == [c] && c in chunks && chunks == front + [c];
        OnePiece(c);
        NonEmptyReadsAreOneShot(limit, front, c);
      }
    } else {
      var i :| CrCrLfAt(text, i) && i + 3 != |text|;
      OddSplitText(text, i);
      OddSplitDiffers(limit, text, i);
      assert NonEmpty(OddSplit(text, i)) && OddSplit(text, i) != [];
      assert !SameUnderNonEmptySplits(limit, text);
    }
  }

  ghost predicate DeliversOneShot(limit: nat, text: string) {
    forall chunks :: Concat(chunks) == text && NonEmpty(chunks) ==>
      Run(limit, Start, chunks).blocks == Complete(Normalize(text))
  }

  /**
   For a text that ends at a blank line the delivered blocks alone decide, even without
   empty reads: they are those of the one-shot parse under every split exactly when no line
   ends in two carriage returns.
   */
  lemma {:induction false} DeliversOneShotIff(limit: nat, text: string)
    requires AcceptedEverywhere(limit, text)
    requires |text| >= 2 && text[|text| - 2..] == "\n\n"
    ensures DeliversOneShot(limit, text) <==> NoCrCrLf(text)
  {
    hide Run, Normalize, Concat, Complete, Tail;
    if NoCrCrLf(text) {
      forall chunks | Concat(chunks) == text && NonEmpty(chunks)
        ensures Run(limit, Start, chunks).blocks == Complete(Normalize(text))
      {
        StreamIsOneShot(limit, chunks);
      }
    } else {
      var i :| CrCrLfAt(text, i);
      OddSplitText(text, i);
      OddSplitBlocksDiffer(limit, text, i);
      assert text[|text| - 2..][0] == '\n';
      assert NonEmpty(OddSplit(text, i));
    }
  }

  lemma OddSplitBlocksDiffer(limit: nat, text: string, i: nat)
    requires AcceptedEverywhere(limit, text) && CrCrLfAt(text, i)
    requires |text| >= 2 && text[|text| - 2..] == "\n\n"
    ensures Run(limit, Start, OddSplit(text, i)).blocks != Complete(Normalize(text))
  {
    hide Run, Concat;
    OnePiece(text);
    OddSplitText(text, i);
    OneRead(limit, text);
    var one, odd := Run(limit, Start, [text]), Run(limit, Start, OddSplit(text, i));
    OddSplitIsShorter(limit, text, i);
    if odd.blocks == one.blocks {
      var j := Rejoin(one.blocks);
      TextIsConserved(limit, OddSplit(text, i));
      TextIsConserved(limit, [text]);
      RejoinShape(one.blocks, []);
      CollapseClosed(j, one.buffer);
      CollapseClosed(j, odd.buffer);
      assert |odd.buffer| < |one.buffer|;
      NormalizeKeepsEnd(text);
      TailAfterBlank(Normalize(text));
    }
  }

  lemma {:induction false} NormalizeKeepsLf(y: string)
    requires y != "" && y[|y| - 1] == '\n'
    ensures var n := Normalize(y); n != "" && n[|n| - 1] == '\n'
    decreases |y|
  {
    if |y| >= 2 && y[0] == '\r' && y[1] == '\n' {
      if |y| > 2 { NormalizeKeepsLf(y[2..]); }
    } else if |y| > 1 {
      NormalizeKeepsLf(y[1..]);
    }
  }

  lemma NormalizeKeepsEnd(text: string)
    requires |text| >= 2 && text[|text| - 2..] == "\n\n"
    ensures var n := Normalize(text); |n| >= 2 && n[|n| - 2..] == "\n\n"
  {
    hide Normalize;
    var y := text[..|text| - 1];
    assert text == y + "\n" && y[|y| - 1] == text[|text| - 2..][0];
    NormalizeKeepsLf(y);
    NormalizeAppend(y, "\n");
    NormalizeCons('\n', "");
    NormalizeNothing();
    assert ['\n'] + "" == "\n" && "\n" + "" == "\n";
  }

  /** After a final blank line at most one line feed is retained. */
  lemma TailAfterBlank(n: string)
    requires |n| >= 2 && n[|n| - 2..] == "\n\n"
    ensures Tail(n) == "" || Tail(n) == "\n"
  {
    TextIsRejoinTail(n);
    TailHasNoBlank(n);
    var t := Tail(n);
    if |t| >= 2 {
      assert t[|t| - 2..] == "\n\n";
      assert BlankAt(t, |t| - 2);
      assert false;
    }
  }
}
