/**
 The streaming loop against the one-shot parser: what is delivered, when a stream is
 refused, and exactly which texts can be cut anywhere without changing the outcome.
 */
module SseReassembly {
  import opened Sse

  predicate CrCrLfAt(s: string, i: int) {
    0 <= i && i + 2 < |s| && s[i] == '\r' && s[i + 1] == '\r' && s[i + 2] == '\n'
  }

  /** No line of the text ends in two carriage returns. */
  ghost predicate NoCrCrLf(s: string) {
    forall i :: !CrCrLfAt(s, i)
  }

  predicate CrLfAt(s: string, i: int) {
    0 <= i && i + 1 < |s| && s[i] == '\r' && s[i + 1] == '\n'
  }

  ghost predicate NoCrLf(s: string) {
    forall i :: !CrLfAt(s, i)
  }

  /** The text ends where a line ends, so nothing after it can join its last character. */
  predicate Closed(s: string) {
    s == "" || s[|s| - 1] == '\n'
  }

  // ---------------------------------------------------------------- normalization

  lemma Assoc(a: string, b: string, c: string)
    ensures (a + b) + c == a + (b + c)
  {
  }

  lemma NormalizeCons(c: char, rest: string)
    requires c != '\r' || rest == "" || rest[0] != '\n'
    ensures Normalize([c] + rest) == [c] + Normalize(rest)
  {
    assert ([c] + rest)[1..] == rest;
  }

  lemma NormalizeNothing()
    ensures Normalize("") == ""
  {
  }

  lemma NormalizeCrLf(rest: string)
    ensures Normalize("\r\n" + rest) == "\n" + Normalize(rest)
  {
    assert ("\r\n" + rest)[2..] == rest;
  }

  lemma {:induction false} NormalizeAppend(x: string, y: string)
    requires x == "" || x[|x| - 1] != '\r' || y == "" || y[0] != '\n'
    ensures Normalize(x + y) == Normalize(x) + Normalize(y)
    decreases |x|
  {
    hide Normalize;
    if x == "" {
      assert x + y == y && Normalize("") + Normalize(y) == Normalize(y) by { NormalizeNothing(); }
    } else if |x| >= 2 && x[0] == '\r' && x[1] == '\n' {
      NormalizeAppend(x[2..], y);
      assert x + y == "\r\n" + (x[2..] + y) && x == "\r\n" + x[2..];
      NormalizeCrLf(x[2..]);
      NormalizeCrLf(x[2..] + y);
      Assoc("\n", Normalize(x[2..]), Normalize(y));
    } else {
      NormalizeAppend(x[1..], y);
      assert x + y == [x[0]] + (x[1..] + y) && x == [x[0]] + x[1..];
      if x[0] == '\r' && x[1..] + y != "" {
        assert (x[1..] + y)[0] == if |x| > 1 then x[1] else y[0];
      }
      NormalizeCons(x[0], x[1..]);
      NormalizeCons(x[0], x[1..] + y);
      Assoc([x[0]], Normalize(x[1..]), Normalize(y));
    }
  }

  lemma {:induction false} NormalizeFixed(s: string)
    requires NoCrLf(s)
    ensures Normalize(s) == s
  {
    if s != "" {
      forall i ensures !CrLfAt(s[1..], i) {
        assert !CrLfAt(s, i + 1);
      }
      assert !CrLfAt(s, 0);
      NormalizeFixed(s[1..]);
    }
  }

  /** One pass leaves no CRLF behind unless a line ended in two carriage returns. */
  lemma {:induction false} NormalizeClears(s: string)
    requires NoCrCrLf(s)
    ensures NoCrLf(Normalize(s))
    ensures |s| > 0 && s[0] != '\r' ==> |Normalize(s)| > 0 && Normalize(s)[0] == s[0]
    ensures s != "" ==> Normalize(s) != "" && (Normalize(s)[0] == s[0] || (|s| >= 2 && s[0] == '\r' && s[1] == '\n'))
    decreases |s|
  {
    if s == "" {
    } else if |s| >= 2 && s[0] == '\r' && s[1] == '\n' {
      NoCrCrLfDrop(s, 2);
      NormalizeClears(s[2..]);
    } else {
      NoCrCrLfDrop(s, 1);
      NormalizeClears(s[1..]);
      assert !CrCrLfAt(s, 0);
    }
    forall i ensures !CrLfAt(Normalize(s), i) {
      if i >= 1 && s != "" {
        var rest := if |s| >= 2 && s[0] == '\r' && s[1] == '\n' then Normalize(s[2..]) else Normalize(s[1..]);
        assert !CrLfAt(rest, i - 1);
      }
    }
  }

  lemma NoCrCrLfDrop(s: string, k: nat)
    requires NoCrCrLf(s) && k <= |s|
    ensures NoCrCrLf(s[k..])
  {
    forall i ensures !CrCrLfAt(s[k..], i) {
      assert !CrCrLfAt(s, i + k);
    }
  }

  lemma NoCrCrLfTake(s: string, k: nat)
    requires NoCrCrLf(s) && k <= |s|
    ensures NoCrCrLf(s[..k])
  {
    forall i ensures !CrCrLfAt(s[..k], i) {
      assert !CrCrLfAt(s, i);
    }
  }

  /** Normalizing what was read so far and then once more with the next chunk is normalizing everything once. */
  lemma {:induction false} NormalizeAgain(p: string, c: string)
    requires NoCrCrLf(p + c)
    ensures Normalize(Normalize(p) + c) == Normalize(p + c)
    decreases |p|
  {
    if p == "" {
    } else if |p| >= 2 && p[0] == '\r' && p[1] == '\n' {
      var rest := p[2..];
      assert p + c == "\r\n" + (rest + c) && p == "\r\n" + rest;
      NoCrCrLfDrop(p + c, 2);
      assert (p + c)[2..] == rest + c;
      NormalizeAgain(rest, c);
      NormalizeCrLf(rest);
      NormalizeCrLf(rest + c);
      Assoc("\n", Normalize(rest), c);
      NormalizeCons('\n', Normalize(rest) + c);
    } else if |p| == 1 {
      assert p[1..] == "";
      assert Normalize(p) == p;
    } else {
      var rest := p[1..];
      assert p + c == [p[0]] + (rest + c) && p == [p[0]] + rest;
      assert !CrCrLfAt(p + c, 0);
      NoCrCrLfDrop(p + c, 1);
      assert (p + c)[1..] == rest + c;
      NormalizeAgain(rest, c);
      NoCrCrLfTake(rest + c, |rest|);
      assert (rest + c)[..|rest|] == rest;
      NormalizeClears(rest);
      NormalizeCons(p[0], rest);
      NormalizeCons(p[0], rest + c);
      Assoc([p[0]], Normalize(rest), c);
      NormalizeCons(p[0], Normalize(rest) + c);
    }
  }

  // ---------------------------------------------------------------- blocks

  lemma FirstBlankIs(s: string, i: int)
    requires BlankAt(s, i) && forall k :: 0 <= k < i ==> !BlankAt(s, k)
    ensures FirstBlank(s) == i
  {
  }

  /** The first blank line of a text stays the first one whatever follows it. */
  lemma FirstBlankStable(s: string, rest: string)
    requires FirstBlank(s) >= 0
    ensures FirstBlank(s[..FirstBlank(s) + 2] + rest) == FirstBlank(s)
  {
    var i := FirstBlank(s);
    var t := s[..i + 2] + rest;
    forall k | 0 <= k < i ensures !BlankAt(t, k) {
      assert !BlankAt(s, k);
      assert t[k] == s[k] && t[k + 1] == s[k + 1];
    }
    FirstBlankIs(t, i);
  }

  /** A text with a blank line is its first block, the blank line, and the rest. */
  lemma FirstBlock(s: string)
    requires FirstBlank(s) >= 0
    ensures var i := FirstBlank(s);
            && s == s[..i + 2] + s[i + 2..]
            && s[..i + 2] == s[..i] + "\n\n"
            && Complete(s)[0] == s[..i] && Complete(s)[1..] == Complete(s[i + 2..])
            && Rejoin(Complete(s)) == s[..i + 2] + Rejoin(Complete(s[i + 2..]))
            && Tail(s) == Tail(s[i + 2..])
  {
    hide FirstBlank, Rejoin;
    var i := FirstBlank(s);
    assert s[..i + 2] == s[..i] + "\n\n";
    assert Complete(s) == [s[..i]] + Complete(s[i + 2..]);
    RejoinCons(s[..i], Complete(s[i + 2..]));
  }

  lemma RejoinCons(block: string, blocks: seq<string>)
    ensures Rejoin([block] + blocks) == block + "\n\n" + Rejoin(blocks)
  {
    assert ([block] + blocks)[1..] == blocks;
  }

  lemma {:induction false} TextIsRejoinTail(s: string)
    ensures s == Rejoin(Complete(s)) + Tail(s)
    decreases |s|
  {
    var i := FirstBlank(s);
    if i != -1 {
      var rest := s[i + 2..];
      FirstBlock(s);
      TextIsRejoinTail(rest);
      Assoc(s[..i + 2], Rejoin(Complete(rest)), Tail(rest));
    }
  }

  /** Finished blocks are parsed on their own: what follows cannot change them. */
  lemma {:induction false} CompleteRejoin(s: string, rest: string)
    ensures Complete(Rejoin(Complete(s)) + rest) == Complete(s) + Complete(rest)
    ensures Tail(Rejoin(Complete(s)) + rest) == Tail(rest)
    decreases |s|
  {
    var i := FirstBlank(s);
    if i == -1 {
      assert Rejoin([]) + rest == rest;
      assert Complete(s) + Complete(rest) == Complete(rest);
    } else {
      var head, after := s[..i + 2], s[i + 2..];
      FirstBlock(s);
      CompleteRejoin(after, rest);
      Assoc(head, Rejoin(Complete(after)), rest);
      CompleteOf(s, Rejoin(Complete(after)) + rest);
      AssocBlocks(s[..i], Complete(after), Complete(rest));
      assert Complete(s) == [s[..i]] + Complete(after);
    }
  }

  lemma AssocBlocks(a: string, b: seq<string>, c: seq<string>)
    ensures ([a] + b) + c == [a] + (b + c)
  {
  }

  lemma CompleteOf(s: string, u: string)
    requires FirstBlank(s) >= 0
    ensures var i := FirstBlank(s);
            && Complete(s[..i + 2] + u) == [s[..i]] + Complete(u)
            && Tail(s[..i + 2] + u) == Tail(u)
  {
    var i := FirstBlank(s);
    FirstBlankStable(s, u);
    assert (s[..i + 2] + u)[..i] == s[..i] && (s[..i + 2] + u)[i + 2..] == u;
  }

  lemma {:induction false} RejoinShape(blocks: seq<string>, extra: seq<string>)
    ensures Closed(Rejoin(blocks))
    ensures Rejoin(blocks + extra) == Rejoin(blocks) + Rejoin(extra)
  {
    if blocks == [] {
      assert blocks + extra == extra;
    } else {
      var first, rest := blocks[0] + "\n\n", blocks[1..];
      RejoinShape(rest, extra);
      assert (blocks + extra)[0] == blocks[0] && (blocks + extra)[1..] == rest + extra;
      assert Rejoin(blocks) == first + Rejoin(rest);
      Assoc(first, Rejoin(rest), Rejoin(extra));
    }
  }

  lemma {:induction false} TailHasNoBlank(s: string)
    ensures FirstBlank(Tail(s)) == -1
    decreases |s|
  {
    if FirstBlank(s) != -1 { TailHasNoBlank(s[FirstBlank(s) + 2..]); }
  }

  // ---------------------------------------------------------------- the inner loop

  /** The index of the first block over the limit, or the number of blocks. */
  function FirstLarge(limit: nat, blocks: seq<string>): (k: nat)
    ensures k <= |blocks|
    ensures forall j :: 0 <= j < k ==> Utf8Size(blocks[j]) <= limit
    ensures k < |blocks| ==> Utf8Size(blocks[k]) > limit
  {
    if blocks == [] || Utf8Size(blocks[0]) > limit then 0 else 1 + FirstLarge(limit, blocks[1..])
  }

  /** The inner loop delivers the complete blocks of the buffer, up to the first one that is too large. */
  lemma {:induction false} CutIsComplete(limit: nat, st: Stream)
    requires !st.failed
    ensures var all := Complete(st.buffer);
            var k := FirstLarge(limit, all);
            var end := Cut(limit, st);
            && end.blocks == st.blocks + all[..k]
            && end.failed == (k < |all|)
            && (!end.failed ==> end.buffer == Tail(st.buffer))
    decreases |st.buffer|
  {
    var i := FirstBlank(st.buffer);
    if i != -1 {
      var block, rest := st.buffer[..i], st.buffer[i + 2..];
      var all, inner := Complete(st.buffer), Complete(st.buffer[i + 2..]);
      FirstBlock(st.buffer);
      assert all == [block] + inner;
      if Utf8Size(block) <= limit {
        CutIsComplete(limit, Stream(st.blocks + [block], rest, false));
        var k := FirstLarge(limit, inner);
        assert FirstLarge(limit, all) == 1 + k;
        TakeCons(st.blocks, block, inner, k);
      }
    }
  }

  lemma TakeCons(done: seq<string>, block: string, inner: seq<string>, k: nat)
    requires k <= |inner|
    ensures (done + [block]) + inner[..k] == done + ([block] + inner)[..k + 1]
  {
  }

  // ---------------------------------------------------------------- one read

  /** The state the one-shot parser would leave after the text p. */
  ghost predicate Matches(st: Stream, p: string) {
    && !st.failed
    && st.blocks == Complete(Normalize(p))
    && st.buffer == Tail(Normalize(p))
  }

  predicate AllFit(limit: nat, blocks: seq<string>) {
    forall b | b in blocks :: Utf8Size(b) <= limit
  }

  /** Reading on from the retained rest gives the blocks and the rest of the longer text. */
  lemma Extend(p: string, c: string)
    requires NoCrCrLf(p + c)
    ensures var rest := Normalize(Tail(Normalize(p)) + c);
            && Complete(Normalize(p + c)) == Complete(Normalize(p)) + Complete(rest)
            && Tail(Normalize(p + c)) == Tail(rest)
            && NoCrLf(Normalize(p))
  {
    NoCrCrLfTake(p + c, |p|);
    assert (p + c)[..|p|] == p;
    NormalizeAgain(p, c);
    ExtendBy(p, c);
  }

  lemma ExtendBy(p: string, c: string)
    requires NoCrCrLf(p) && Normalize(Normalize(p) + c) == Normalize(p + c)
    ensures var rest := Normalize(Tail(Normalize(p)) + c);
            && Complete(Normalize(p + c)) == Complete(Normalize(p)) + Complete(rest)
            && Tail(Normalize(p + c)) == Tail(rest)
            && NoCrLf(Normalize(p))
  {
    var n := Normalize(p);
    var done, tail := Rejoin(Complete(n)), Tail(n);
    NormalizeClears(p);
    TextIsRejoinTail(n);
    RejoinShape(Complete(n), []);
    Assoc(done, tail, c);
    NormalizeAppend(done, tail + c);
    forall i ensures !CrLfAt(done, i) {
      assert !CrLfAt(n, i);
    }
    NormalizeFixed(done);
    CompleteRejoin(n, Normalize(tail + c));
  }

  lemma FirstLargeAll(limit: nat, blocks: seq<string>)
    ensures FirstLarge(limit, blocks) == |blocks| <==> AllFit(limit, blocks)
  {
    var k := FirstLarge(limit, blocks);
    if k < |blocks| {
      assert blocks[k] in blocks;
    }
  }

  lemma ReadStep(limit: nat, st: Stream, p: string, c: string)
    requires NoCrCrLf(p + c) && Matches(st, p) && AllFit(limit, st.blocks)
    ensures var end, n := Read(limit, st, c), Normalize(p + c);
            && st.blocks <= Complete(n)
            && end.blocks <= Complete(n)
            && (!end.failed <==> AllFit(limit, Complete(n)) && Utf8Size(Tail(n)) <= limit)
            && (!end.failed ==> Matches(end, p + c))
  {
    NoCrCrLfTake(p + c, |p|);
    assert (p + c)[..|p|] == p;
    NormalizeAgain(p, c);
    ReadStepBy(limit, st, p, c);
  }

  lemma ReadStepBy(limit: nat, st: Stream, p: string, c: string)
    requires NoCrCrLf(p) && Normalize(Normalize(p) + c) == Normalize(p + c)
    requires Matches(st, p) && AllFit(limit, st.blocks)
    ensures var end, n := Read(limit, st, c), Normalize(p + c);
            && st.blocks <= Complete(n)
            && end.blocks <= Complete(n)
            && (!end.failed <==> AllFit(limit, Complete(n)) && Utf8Size(Tail(n)) <= limit)
            && (!end.failed ==> Matches(end, p + c))
  {
    ExtendBy(p, c);
    var rest := Normalize(st.buffer + c);
    var all := Complete(rest);
    CutIsComplete(limit, st.(buffer := rest));
    FirstLargeAll(limit, all);
    AllFitConcat(limit, st.blocks, all);
    TakeIsPrefix(st.blocks, all, FirstLarge(limit, all));
  }

  lemma AllFitConcat(limit: nat, a: seq<string>, b: seq<string>)
    ensures AllFit(limit, a + b) <==> AllFit(limit, a) && AllFit(limit, b)
  {
    assert forall x :: x in a + b <==> x in a || x in b;
  }

  lemma TakeIsPrefix(a: seq<string>, b: seq<string>, k: nat)
    requires k <= |b|
    ensures a <= a + b && a + b[..k] <= a + b
    ensures k == |b| ==> a + b[..k] == a + b
  {
    assert a + b == (a + b[..k]) + b[k..];
  }

  // ---------------------------------------------------------------- whole runs

  /** The rest retained after the first k chunks fits, for every k >= 1. */
  ghost predicate TailsFit(limit: nat, p: string, chunks: seq<string>) {
    forall k :: 1 <= k <= |chunks| ==> Utf8Size(Tail(Normalize(p + Concat(chunks[..k])))) <= limit
  }

  lemma {:induction false} RunFrom(limit: nat, st: Stream, p: string, chunks: seq<string>)
    requires NoCrCrLf(p + Concat(chunks)) && Matches(st, p) && AllFit(limit, st.blocks)
    ensures var end, n := Run(limit, st, chunks), Normalize(p + Concat(chunks));
            && st.blocks <= Complete(n)
            && end.blocks <= Complete(n)
            && (!end.failed <==> AllFit(limit, Complete(n)) && TailsFit(limit, p, chunks))
            && (!end.failed ==> Matches(end, p + Concat(chunks)))
    decreases |chunks|
  {
    if chunks == [] {
      assert p + Concat(chunks) == p;
    } else {
      var c, rest := chunks[0], chunks[1..];
      var whole := p + Concat(chunks);
      Assoc(p, c, Concat(rest));
      NoCrCrLfTake(whole, |p + c|);
      assert whole[..|p + c|] == p + c;
      ReadStep(limit, st, p, c);
      var mid := Read(limit, st, c);
      TailsFitCons(limit, p, chunks);
      if mid.failed {
        RunFailed(limit, mid, rest);
        Extend(p + c, Concat(rest));
        AllFitConcat(limit, Complete(Normalize(p + c)), Complete(Normalize(whole))[|Complete(Normalize(p + c))|..]);
      } else {
        RunFrom(limit, mid, p + c, rest);
      }
    }
  }

  lemma TailsFitCons(limit: nat, p: string, chunks: seq<string>)
    requires chunks != []
    ensures TailsFit(limit, p, chunks) <==>
            Utf8Size(Tail(Normalize(p + chunks[0]))) <= limit && TailsFit(limit, p + chunks[0], chunks[1..])
  {
    var c, rest := chunks[0], chunks[1..];
    forall k | 1 <= k <= |chunks|
      ensures p + Concat(chunks[..k]) == (p + c) + Concat(rest[..k - 1])
    {
      assert chunks[..k][0] == c && chunks[..k][1..] == rest[..k - 1];
      Assoc(p, c, Concat(rest[..k - 1]));
    }
    assert Concat(rest[..0]) == "" && (p + c) + "" == p + c;
    if TailsFit(limit, p, chunks) {
      assert Utf8Size(Tail(Normalize(p + Concat(chunks[..1])))) <= limit;
      forall k | 1 <= k <= |rest| ensures Utf8Size(Tail(Normalize((p + c) + Concat(rest[..k])))) <= limit {
        assert Utf8Size(Tail(Normalize(p + Concat(chunks[..k + 1])))) <= limit;
      }
    }
  }

  /**
   Cut anywhere, a text in which no line ends in two carriage returns is delivered as the
   one-shot parser would deliver it, and the run is refused exactly when a block or some
   retained rest exceeds the limit. What a refused run delivered is a prefix.
   */
  lemma {:induction false} StreamIsOneShot(limit: nat, chunks: seq<string>)
    requires NoCrCrLf(Concat(chunks))
    ensures var end, n := Run(limit, Start, chunks), Normalize(Concat(chunks));
            && end.blocks <= Complete(n)
            && (!end.failed ==> end.blocks == Complete(n) && end.buffer == Tail(n))
            && (!end.failed <==> AllFit(limit, Complete(n)) && TailsFit(limit, "", chunks))
  {
    assert "" + Concat(chunks) == Concat(chunks);
    RunFrom(limit, Start, "", chunks);
  }
}
