/** Consequences for streams: which texts the size limit accepts, however they are cut. */
module SseTheorems {
  import opened Sse
  import opened SseReassembly

  // ---------------------------------------------------------------- byte sizes

  lemma {:induction false} SizeAppend(a: string, b: string)
    ensures Utf8Size(a + b) == Utf8Size(a) + Utf8Size(b)
  {
    if a == "" {
      assert a + b == b;
    } else {
      SizeAppend(a[1..], b);
      assert (a + b)[1..] == a[1..] + b;
    }
  }

  lemma SizeTake(s: string, k: nat)
    requires k <= |s|
    ensures Utf8Size(s) == Utf8Size(s[..k]) + Utf8Size(s[k..])
  {
    assert s == s[..k] + s[k..];
    SizeAppend(s[..k], s[k..]);
  }

  lemma {:induction false} NormalizeShrinks(s: string)
    ensures Utf8Size(Normalize(s)) <= Utf8Size(s)
    ensures |Normalize(s)| <= |s|
    decreases |s|
  {
    if s == "" {
    } else if |s| >= 2 && s[0] == '\r' && s[1] == '\n' {
      NormalizeShrinks(s[2..]);
      SizeAppend("\n", Normalize(s[2..]));
      SizeTake(s, 2);
      assert Utf8Size("\n") == 1;
    } else {
      NormalizeShrinks(s[1..]);
      SizeAppend([s[0]], Normalize(s[1..]));
      SizeTake(s, 1);
    }
  }

  /**
   A retained rest reappears in the normalized longer text: character by character, except
   that a final carriage return may have become the line feed of a CRLF.
   */
  lemma {:induction false} RetainedReappears(t: string, r: string)
    requires NoCrLf(t)
    ensures var m := Normalize(t + r);
            && |t| <= |m|
            && (forall k :: 0 <= k < |t| - 1 ==> m[k] == t[k])
            && Utf8Size(m[..|t|]) == Utf8Size(t)
    decreases |t|
  {
    var m := Normalize(t + r);
    if t == "" {
    } else if |t| == 1 {
      var last := t[0];
      assert t[1..] == "" && (t + r)[0] == last;
      assert Utf8Size(t) == CharSize(last);
      if last == '\r' && r != "" && r[0] == '\n' {
        assert m[..1] == "\n" && Utf8Size("\n") == 1;
      } else {
        assert m[..1] == [last];
      }
    } else {
      assert !CrLfAt(t, 0);
      forall i ensures !CrLfAt(t[1..], i) {
        assert !CrLfAt(t, i + 1);
      }
      RetainedReappears(t[1..], r);
      var m' := Normalize(t[1..] + r);
      assert (t + r)[1..] == t[1..] + r;
      assert m == [t[0]] + m';
      assert m[..|t|] == [t[0]] + m'[..|t| - 1];
      SizeAppend([t[0]], m'[..|t| - 1]);
      SizeTake(t, 1);
    }
  }

  // ---------------------------------------------------------------- the size limit

  lemma RetainedInBlock(t: string, r: string)
    requires NoCrLf(t) && FirstBlank(t) == -1
    ensures var m := Normalize(t + r);
            var i := FirstBlank(m);
            if i == -1 then Utf8Size(t) <= Utf8Size(m) else Utf8Size(t) <= Utf8Size(m[..i]) + 2
  {
    hide Normalize, FirstBlank, NoCrLf, Utf8Size;
    var m := Normalize(t + r);
    RetainedReappears(t, r);
    var i := FirstBlank(m);
    if i == -1 {
      SizeTake(m, |t|);
    } else {
      assert !BlankAt(t, i);
      assert |t| <= i + 2;
      var head := m[..i + 2];
      assert head[..|t|] == m[..|t|];
      SizeTake(head, |t|);
      assert head == m[..i] + "\n\n";
      SizeAppend(m[..i], "\n\n");
      TwoLineFeeds();
    }
  }

  lemma TwoLineFeeds()
    ensures Utf8Size("\n\n") == 2
  {
    SizeAppend("\n", "\n");
    assert "\n" + "\n" == "\n\n" && Utf8Size("\n") == 1;
  }

  lemma RetainedIsClean(p: string, r: string)
    requires NoCrCrLf(p + r)
    ensures NoCrLf(Tail(Normalize(p))) && FirstBlank(Tail(Normalize(p))) == -1
  {
    var n := Normalize(p);
    Extend(p, r);
    TextIsRejoinTail(n);
    TailHasNoBlank(n);
    forall i ensures !CrLfAt(Tail(n), i) {
      assert !CrLfAt(n, i + |Rejoin(Complete(n))|);
    }
  }

  /** Whatever is retained after a prefix of the text is at most two bytes longer than a block, or part of the tail. */
  lemma {:induction false} RetainedBound(limit: nat, p: string, r: string)
    requires NoCrCrLf(p + r)
    requires forall b | b in Complete(Normalize(p + r)) :: Utf8Size(b) + 2 <= limit
    requires Utf8Size(Tail(Normalize(p + r))) <= limit
    ensures Utf8Size(Tail(Normalize(p))) <= limit
  {
    var t := Tail(Normalize(p));
    var m := Normalize(t + r);
    Extend(p, r);
    RetainedIsClean(p, r);
    RetainedInBlock(t, r);
    var i := FirstBlank(m);
    if i != -1 {
      assert Complete(m)[0] == m[..i];
      assert m[..i] in Complete(m);
    }
  }

  lemma {:induction false} ConcatSplit(chunks: seq<string>, k: nat)
    requires k <= |chunks|
    ensures Concat(chunks) == Concat(chunks[..k]) + Concat(chunks[k..])
  {
    if k > 0 {
      ConcatSplit(chunks[1..], k - 1);
      assert chunks[..k][0] == chunks[0] && chunks[..k][1..] == chunks[1..][..k - 1] && chunks[1..][k - 1..] == chunks[k..];
      Assoc(chunks[0], Concat(chunks[1..][..k - 1]), Concat(chunks[k..]));
    } else {
      assert chunks[0..] == chunks;
    }
  }

  /** Blocks two bytes under the limit and a tail within it are accepted however the text is cut. */
  lemma {:induction false} SmallBlocksAccepted(limit: nat, chunks: seq<string>)
    requires NoCrCrLf(Concat(chunks))
    requires forall b | b in Complete(Normalize(Concat(chunks))) :: Utf8Size(b) + 2 <= limit
    requires Utf8Size(Tail(Normalize(Concat(chunks)))) <= limit
    ensures !Run(limit, Start, chunks).failed
  {
    forall k | 1 <= k <= |chunks|
      ensures Utf8Size(Tail(Normalize("" + Concat(chunks[..k])))) <= limit
    {
      ConcatSplit(chunks, k);
      assert "" + Concat(chunks[..k]) == Concat(chunks[..k]);
      RetainedBound(limit, Concat(chunks[..k]), Concat(chunks[k..]));
    }
    StreamIsOneShot(limit, chunks);
  }

  /** The rest retained after any prefix of the text fits. */
  ghost predicate PrefixesFit(limit: nat, text: string) {
    forall k :: 0 <= k <= |text| ==> Utf8Size(Tail(Normalize(text[..k]))) <= limit
  }

  lemma OnePiece(a: string)
    ensures Concat([a]) == a
  {
    assert [a][1..] == [] && a + "" == a;
  }

  lemma TwoPieces(a: string, b: string)
    ensures Concat([a, b]) == a + b && [a, b][..1] == [a]
  {
    OnePiece(b);
    assert [a, b][1..] == [b];
  }

  lemma PrefixesFitEverySplit(limit: nat, chunks: seq<string>)
    requires NoCrCrLf(Concat(chunks))
    requires AllFit(limit, Complete(Normalize(Concat(chunks)))) && PrefixesFit(limit, Concat(chunks))
    ensures !Run(limit, Start, chunks).failed
  {
    forall k | 1 <= k <= |chunks|
      ensures Utf8Size(Tail(Normalize("" + Concat(chunks[..k])))) <= limit
    {
      ConcatSplit(chunks, k);
      var p := Concat(chunks[..k]);
      assert "" + p == p && Concat(chunks)[..|p|] == p;
    }
    StreamIsOneShot(limit, chunks);
  }

  lemma TwoPieceSplitFits(limit: nat, text: string, k: nat)
    requires NoCrCrLf(text) && k <= |text|
    requires !Run(limit, Start, [text[..k], text[k..]]).failed
    ensures AllFit(limit, Complete(Normalize(text))) && Utf8Size(Tail(Normalize(text[..k]))) <= limit
  {
    var chunks := [text[..k], text[k..]];
    TwoPieces(text[..k], text[k..]);
    OnePiece(text[..k]);
    assert text[..k] + text[k..] == text;
    StreamIsOneShot(limit, chunks);
    assert "" + Concat(chunks[..1]) == text[..k];
  }

  ghost predicate AcceptedEverywhere(limit: nat, text: string) {
    forall chunks :: Concat(chunks) == text ==> !Run(limit, Start, chunks).failed
  }

  /** A text is accepted under every split exactly when its blocks and the rests of all its prefixes fit. */
  lemma {:induction false} AcceptedUnderEverySplit(limit: nat, text: string)
    requires NoCrCrLf(text)
    ensures AcceptedEverywhere(limit, text)
            <==> AllFit(limit, Complete(Normalize(text))) && PrefixesFit(limit, text)
  {
    hide NoCrCrLf, AllFit, Complete, Normalize, Utf8Size, Tail, Run, Concat;
    if AllFit(limit, Complete(Normalize(text))) && PrefixesFit(limit, text) {
      forall chunks | Concat(chunks) == text ensures !Run(limit, Start, chunks).failed {
        PrefixesFitEverySplit(limit, chunks);
      }
      assert AcceptedEverywhere(limit, text);
    }
    if AcceptedEverywhere(limit, text) {
      forall k | 0 <= k <= |text|
        ensures Utf8Size(Tail(Normalize(text[..k]))) <= limit
      {
        SplitAt(limit, text, k);
      }
      SplitAt(limit, text, 0);
      assert PrefixesFit(limit, text);
    }
  }

  lemma SplitAt(limit: nat, text: string, k: nat)
    requires NoCrCrLf(text) && k <= |text|
    requires AcceptedEverywhere(limit, text)
    ensures AllFit(limit, Complete(Normalize(text))) && Utf8Size(Tail(Normalize(text[..k]))) <= limit
  {
    hide NoCrCrLf, AllFit, Complete, Normalize, Utf8Size, Tail, Run, Concat;
    var chunks := [text[..k], text[k..]];
    TwoPieces(text[..k], text[k..]);
    assert Concat(chunks) == text by { assert text[..k] + text[k..] == text; }
    assert !Run(limit, Start, chunks).failed;
    TwoPieceSplitFits(limit, text, k);
  }

  // ---------------------------------------------------------------- the two bytes are needed

  /** The text holds no line terminator. */
  predicate Plain(s: string) {
    '\r' !in s && '\n' !in s
  }

  lemma PlainPrefix(block: string, rest: string)
    requires Plain(block)
    ensures Normalize(block + rest) == block + Normalize(rest)
    ensures NoCrCrLf(rest) ==> NoCrCrLf(block + rest)
    ensures forall k :: 0 <= k < |block| ==> !BlankAt(block + rest, k)
  {
    forall i ensures !CrLfAt(block, i) {
      if 0 <= i && i + 1 < |block| { assert block[i] in block; }
    }
    NormalizeFixed(block);
    if block != "" { assert block[|block| - 1] in block; }
    NormalizeAppend(block, rest);
    var t := block + rest;
    if NoCrCrLf(rest) {
      forall i ensures !CrCrLfAt(t, i) {
        if 0 <= i < |block| { assert t[i] == block[i] && block[i] in block; }
        assert !CrCrLfAt(rest, i - |block|);
      }
    }
    forall k | 0 <= k < |block| ensures !BlankAt(t, k) {
      assert t[k] == block[k] && block[k] in block;
    }
  }

  lemma PlainBlock(block: string)
    requires Plain(block)
    ensures Complete(block + "\n\n") == [block] && Tail(block + "\n\n") == ""
    ensures Tail(block + "\n\r") == block + "\n\r"
  {
    var n, h := block + "\n\n", block + "\n\r";
    PlainPrefix(block, "\n\n");
    FirstBlankIs(n, |block|);
    assert n[..|block|] == block && n[|block| + 2..] == "";
    PlainPrefix(block, "\n\r");
    forall k ensures !BlankAt(h, k) {
    }
    assert FirstBlank(h) == -1;
  }

  lemma NormalizeTwoCrLf()
    ensures Normalize("\r\n\r\n") == "\n\n" && Normalize("\r\n\r") == "\n\r"
    ensures NoCrCrLf("\r\n\r\n")
  {
    NormalizeCrLf("");
    NormalizeCrLf("\r\n");
    NormalizeCrLf("\r");
    assert "\r\n" + "" == "\r\n" && "\r\n" + "\r\n" == "\r\n\r\n" && "\r\n" + "\r" == "\r\n\r";
    assert "\n" + "\n" == "\n\n" && "\n" + "\r" == "\n\r" && Normalize("\r") == "\r";
  }

  /** A block one byte under the limit passes in one piece and is refused in two: its size alone does not decide. */
  lemma {:induction false} BlockNearLimitDependsOnSplit(block: string)
    requires Plain(block)
    ensures var limit := Utf8Size(block) + 1;
            && Concat([block + "\r\n\r", "\n"]) == Concat([block + "\r\n\r\n"])
            && !Run(limit, Start, [block + "\r\n\r\n"]).failed
            && Run(limit, Start, [block + "\r\n\r", "\n"]).failed
  {
    var whole, half := block + "\r\n\r\n", block + "\r\n\r";
    OnePiece(whole);
    TwoPieces(half, "\n");
    assert half + "\n" == whole;
    NormalizeTwoCrLf();
    PlainPrefix(block, "\r\n\r\n");
    PlainBlock(block);
    SizeAppend(block, "\n\r");
    SizeAppend("\n", "\r");
    PlainPrefix(block, "\r\n\r");
    OneChunk(Utf8Size(block) + 1, [whole]);
    FirstOfTwo(Utf8Size(block) + 1, [half, "\n"]);
  }

  lemma OneChunk(limit: nat, chunks: seq<string>)
    requires |chunks| == 1 && NoCrCrLf(chunks[0])
    requires AllFit(limit, Complete(Normalize(chunks[0]))) && Utf8Size(Tail(Normalize(chunks[0]))) <= limit
    ensures !Run(limit, Start, chunks).failed
  {
    OnePiece(chunks[0]);
    assert chunks == [chunks[0]] && chunks[..1] == chunks && "" + chunks[0] == chunks[0];
    StreamIsOneShot(limit, chunks);
  }

  lemma FirstOfTwo(limit: nat, chunks: seq<string>)
    requires |chunks| == 2 && NoCrCrLf(Concat(chunks))
    requires Utf8Size(Tail(Normalize(chunks[0]))) > limit
    ensures Run(limit, Start, chunks).failed
  {
    OnePiece(chunks[0]);
    assert chunks[..1] == [chunks[0]] && "" + chunks[0] == chunks[0];
    StreamIsOneShot(limit, chunks);
  }
}
