/**
 Texts of any kind and length that meet no size error: it is enough that their blocks and
 the rest stay a few bytes under the limit. Reading may remove further carriage returns
 before line feeds, which shifts the cuts but never makes what is between blank lines longer.
 */
module SseSizes {
  import opened Sse
  import opened SseReassembly
  import opened SseTheorems
  import opened SseSplit

  predicate NoBlank(s: string) {
    FirstBlank(s) == -1
  }

  /** Every stretch of the text without a blank line has at most this many bytes. */
  ghost predicate Calm(limit: nat, s: string) {
    forall i, j :: 0 <= i <= j <= |s| && NoBlank(s[i..j]) ==> Utf8Size(s[i..j]) <= limit
  }

  lemma Slice(s: string, a: nat, b: nat, i: nat, j: nat)
    requires a <= b <= |s| && i <= j <= b - a
    ensures s[a..b][i..j] == s[a + i..a + j]
  {
    var t, u := s[a..b][i..j], s[a + i..a + j];
    forall k | 0 <= k < j - i ensures t[k] == u[k] {
      assert t[k] == s[a..b][i + k];
    }
  }

  lemma HasBlank(s: string, i: nat, j: nat, at: nat)
    requires i <= at && at + 2 <= j <= |s| && BlankAt(s, at)
    ensures !NoBlank(s[i..j])
  {
    assert BlankAt(s[i..j], at - i);
  }

  lemma CalmPart(limit: nat, s: string, a: nat, b: nat)
    requires a <= b <= |s| && Calm(limit, s)
    ensures Calm(limit, s[a..b])
  {
    hide FirstBlank, Utf8Size;
    forall i, j | 0 <= i <= j <= b - a && NoBlank(s[a..b][i..j]) ensures Utf8Size(s[a..b][i..j]) <= limit {
      Slice(s, a, b, i, j);
    }
  }

  lemma CalmOneMore(limit: nat, s: string, c: char)
    requires Calm(limit, s) && CharSize(c) == 1
    ensures Calm(limit + 1, s + [c])
  {
    hide Utf8Size;
    var t := s + [c];
    forall i, j | 0 <= i <= j <= |t| && NoBlank(t[i..j]) ensures Utf8Size(t[i..j]) <= limit + 1 {
      if j <= |s| {
        assert t[i..j] == s[i..j];
      } else if i <= |s| {
        var v := s[i..|s|];
        assert t[i..j] == v + [c];
        forall k ensures !BlankAt(v, k) {
          assert !BlankAt(v + [c], k);
        }
        SizeAppend(v, [c]);
        OneCharSize(c);
      } else {
        EmptySize();
      }
    }
  }

  lemma OneCharSize(c: char)
    ensures Utf8Size([c]) == CharSize(c)
  {
    assert [c][1..] == "";
  }

  lemma EmptySize()
    ensures Utf8Size("") == 0
  {
  }

  // ---------------------------------------------------------------- text with carriage returns left out

  /** The second text is the first with some carriage returns left out. */
  predicate Thins(s: string, t: string)
    decreases |s|
  {
    if s == "" then t == ""
    else (t != "" && t[0] == s[0] && Thins(s[1..], t[1..])) || (s[0] == '\r' && Thins(s[1..], t))
  }

  lemma {:induction false} ThinsSelf(s: string)
    ensures Thins(s, s)
  {
    if s != "" { ThinsSelf(s[1..]); }
  }

  /** Thinning cons by cons. */
  lemma ThinsCons(c: char, s: string, t: string)
    requires Thins(s, t)
    ensures Thins([c] + s, [c] + t)
    ensures c == '\r' ==> Thins([c] + s, t)
  {
    assert ([c] + s)[1..] == s && ([c] + t)[1..] == t;
  }

  /** Normalizing thins the front of a text. */
  lemma {:induction false} ThinsNormalize(s: string, r: string)
    ensures Thins(s + r, Normalize(s) + r)
    decreases |s|
  {
    hide Thins, Normalize;
    if s == "" {
      ThinsSelf(r);
      NormalizeNothing();
      assert s + r == r && Normalize(s) + r == r;
    } else if |s| >= 2 && s[0] == '\r' && s[1] == '\n' {
      ThinsNormalize(s[2..], r);
      NormalizeCrLf(s[2..]);
      assert s == "\r\n" + s[2..];
      var x, y := s[2..] + r, Normalize(s[2..]) + r;
      ThinsCons('\n', x, y);
      ThinsCons('\r', ['\n'] + x, ['\n'] + y);
      assert s + r == ['\r'] + (['\n'] + x) && Normalize(s) + r == ['\n'] + y;
    } else {
      ThinsNormalize(s[1..], r);
      NormalizeCons(s[0], s[1..]);
      assert s == [s[0]] + s[1..];
      var x, y := s[1..] + r, Normalize(s[1..]) + r;
      ThinsCons(s[0], x, y);
      assert s + r == [s[0]] + x && Normalize(s) + r == [s[0]] + y;
    }
  }

  /** Normalization keeps the order: of a thinner text it makes a thinner text. */
  lemma {:induction false} NormalizeThins(s: string, t: string)
    requires Thins(s, t)
    ensures Thins(Normalize(s), Normalize(t))
    decreases |s|
  {
    if s == "" {
    } else if |s| >= 2 && s[0] == '\r' && s[1] == '\n' {
      NormalizeThinsCrLf(s, t);
    } else if t != "" && t[0] == s[0] && Thins(s[1..], t[1..]) {
      NormalizeThins(s[1..], t[1..]);
      ThinsCons(s[0], Normalize(s[1..]), Normalize(t[1..]));
      if |t| >= 2 && t[0] == '\r' && t[1] == '\n' {
        assert Normalize(t[1..]) == "\n" + Normalize(t[1..][1..]) && t[1..][1..] == t[2..];
      }
    } else {
      NormalizeThins(s[1..], t);
      ThinsCons(s[0], Normalize(s[1..]), Normalize(t));
    }
  }

  lemma NotShort(s: string, t: string)
    requires |s| >= 2 && s[0] == '\r' && s[1] == '\n' && Thins(s, t)
    ensures t != "" && (t[0] == '\r' ==> |t| >= 2 && t[1] == '\n')
  {
    var s1 := s[1..];
    assert s1[0] == '\n';
    assert Thins(s1, t) ==> t != "" && t[0] == '\n';
    if t != "" { assert Thins(s1, t[1..]) ==> t[1..] != "" && t[1..][0] == '\n'; }
  }

  lemma NormalizeThinsCrLf(s: string, t: string)
    requires |s| >= 2 && s[0] == '\r' && s[1] == '\n' && Thins(s, t)
    ensures Thins(Normalize(s), Normalize(t))
    decreases |s|, 0
  {
    var rest := s[2..];
    assert s[1..][0] == '\n' && s[1..][1..] == rest;
    assert t != "" && (t[0] == '\r' ==> |t| >= 2) by { NotShort(s, t); }
    var u := if t[0] == '\r' then t[2..] else t[1..];
    var s1 := s[1..];
    if t[0] == '\r' {
      assert !Thins(s1, t);
      assert Thins(s1, t[1..]);
      assert t[1..][0] == '\n' && t[1..][1..] == t[2..];
    } else {
      assert Thins(s1, t);
    }
    assert Thins(rest, u);
    assert Normalize(t) == "\n" + Normalize(u);
    NormalizeThins(rest, u);
    ThinsCons('\n', Normalize(rest), Normalize(u));
  }

  lemma {:induction false} ThinsSize(s: string, t: string)
    requires Thins(s, t)
    ensures Utf8Size(t) <= Utf8Size(s)
  {
    if s != "" {
      if t != "" && t[0] == s[0] && Thins(s[1..], t[1..]) {
        ThinsSize(s[1..], t[1..]);
      } else {
        ThinsSize(s[1..], t);
      }
    }
  }

  /** Adjacent line feeds stay adjacent. */
  lemma {:induction false} ThinsKeepsBlank(s: string, t: string, k: nat)
    requires Thins(s, t) && BlankAt(s, k)
    ensures !NoBlank(t)
    decreases |s|
  {
    if k == 0 {
      assert s[1..][0] == '\n';
      assert BlankAt(t, 0);
    } else {
      assert BlankAt(s[1..], k - 1);
      if t != "" && t[0] == s[0] && Thins(s[1..], t[1..]) {
        ThinsKeepsBlank(s[1..], t[1..], k - 1);
        var m := FirstBlank(t[1..]);
        assert BlankAt(t, m + 1);
      } else {
        ThinsKeepsBlank(s[1..], t, k - 1);
      }
    }
  }

  lemma {:induction false} ThinsSplit(s: string, a: string, b: string) returns (i: nat)
    requires Thins(s, a + b)
    ensures i <= |s| && Thins(s[..i], a) && Thins(s[i..], b)
    decreases |s|
  {
    if a == "" {
      assert a + b == b && s[0..] == s;
      return 0;
    }
    var t := a + b;
    if t[0] == s[0] && Thins(s[1..], t[1..]) {
      assert t[1..] == a[1..] + b;
      var k := ThinsSplit(s[1..], a[1..], b);
      i := k + 1;
      assert s[..i] == [s[0]] + s[1..][..k] && a == [a[0]] + a[1..];
      ThinsCons(s[0], s[1..][..k], a[1..]);
      assert s[1..][k..] == s[i..];
    } else {
      var k := ThinsSplit(s[1..], a, b);
      i := k + 1;
      assert s[..i] == [s[0]] + s[1..][..k];
      ThinsCons(s[0], s[1..][..k], a);
      assert s[1..][k..] == s[i..];
    }
  }

  /** Leaving out carriage returns makes no stretch without a blank line longer. */
  lemma CalmThins(limit: nat, s: string, t: string)
    requires Calm(limit, s) && Thins(s, t)
    ensures Calm(limit, t)
  {
    hide Utf8Size, Thins, FirstBlank;
    forall i, j | 0 <= i <= j <= |t| && NoBlank(t[i..j]) ensures Utf8Size(t[i..j]) <= limit {
      assert t == t[..i] + (t[i..j] + t[j..]);
      var a := ThinsSplit(s, t[..i], t[i..j] + t[j..]);
      var k := ThinsSplit(s[a..], t[i..j], t[j..]);
      var v := s[a..a + k];
      assert s[a..][..k] == v;
      if !NoBlank(v) {
        ThinsKeepsBlank(v, t[i..j], FirstBlank(v));
      }
      ThinsSize(v, t[i..j]);
    }
  }

  // ---------------------------------------------------------------- the read loop on calm text

  /** What a read leaves to come is as calm as what was to come before it. */
  lemma StillCalm(limit: nat, buffer: string, chunk: string, rest: string, cut: nat)
    requires Calm(limit, Normalize(buffer + (chunk + rest)))
    requires var n := Normalize(buffer + chunk); cut <= |n| && (cut == 0 || n[cut - 1] == '\n')
    ensures Calm(limit, Normalize(Normalize(buffer + chunk)[cut..] + rest))
  {
    hide Normalize, Thins, Calm;
    var y := buffer + chunk;
    var n := Normalize(y);
    Assoc(buffer, chunk, rest);
    ThinsNormalize(y, rest);
    NormalizeThins(y + rest, n + rest);
    CalmThins(limit, Normalize(y + rest), Normalize(n + rest));
    var taken, left := n[..cut], n[cut..] + rest;
    assert n + rest == taken + left;
    NormalizeAppend(taken, left);
    CalmPart(limit, Normalize(n + rest), |Normalize(taken)|, |Normalize(n + rest)|);
    assert Normalize(n + rest)[|Normalize(taken)|..|Normalize(n + rest)|] == Normalize(left);
  }

  /** The text read so far is calm as well, but for a carriage return at its end. */
  lemma FrontIsCalm(limit: nat, y: string, rest: string)
    requires Calm(limit, Normalize(y + rest))
    ensures Calm(limit + 1, Normalize(y))
  {
    hide Normalize, Calm;
    if y != "" && y[|y| - 1] == '\r' && rest != "" && rest[0] == '\n' {
      var front := y[..|y| - 1];
      assert y == front + "\r" && y + rest == front + ("\r" + rest);
      NormalizeAppend(front, "\r");
      NormalizeAppend(front, "\r" + rest);
      NormalizeCons('\r', "");
      NormalizeNothing();
      assert ['\r'] + "" == "\r";
      CalmPart(limit, Normalize(y + rest), 0, |Normalize(front)|);
      assert Normalize(y + rest)[0..|Normalize(front)|] == Normalize(front);
      CalmOneMore(limit, Normalize(front), '\r');
    } else {
      NormalizeAppend(y, rest);
      CalmPart(limit, Normalize(y + rest), 0, |Normalize(y)|);
      assert Normalize(y + rest)[0..|Normalize(y)|] == Normalize(y);
      CalmMore(limit, Normalize(y));
    }
  }

  lemma CalmMore(limit: nat, s: string)
    requires Calm(limit, s)
    ensures Calm(limit + 1, s)
  {
  }

  lemma {:induction false} CutOfCalm(limit: nat, st: Stream)
    requires !st.failed && Calm(limit, st.buffer)
    ensures var b := Cut(limit, st).buffer;
            && !Cut(limit, st).failed && Utf8Size(b) <= limit
            && |b| <= |st.buffer|
            && var cut := |st.buffer| - |b|; b == st.buffer[cut..] && (cut == 0 || st.buffer[cut - 1] == '\n')
    decreases |st.buffer|
  {
    hide Calm, Utf8Size, Cut, FirstBlank;
    var n := st.buffer;
    var i := FirstBlank(n);
    if i == -1 {
      CalmWhole(limit, n);
      assert Cut(limit, st) == st by { NothingToCut(limit, st); }
      assert n[0..] == n;
    } else {
      var rest := n[i + 2..];
      FirstBlockFits(limit, n);
      CutMore(limit, st);
      var next := Stream(st.blocks + [n[..i]], rest, false);
      CutOfCalm(limit, next);
      var b := Cut(limit, next).buffer;
      var cut := |rest| - |b|;
      assert b == n[i + 2 + cut..];
    }
  }

  lemma NothingToCut(limit: nat, st: Stream)
    requires FirstBlank(st.buffer) == -1
    ensures Cut(limit, st) == st
  {
  }

  lemma CutMore(limit: nat, st: Stream)
    requires var i := FirstBlank(st.buffer); !st.failed && i != -1 && Utf8Size(st.buffer[..i]) <= limit
    ensures var i := FirstBlank(st.buffer);
            Cut(limit, st) == Cut(limit, Stream(st.blocks + [st.buffer[..i]], st.buffer[i + 2..], false))
  {
  }

  lemma FirstBlockFits(limit: nat, n: string)
    requires Calm(limit, n) && !NoBlank(n)
    ensures var i := FirstBlank(n); Utf8Size(n[..i]) <= limit && Calm(limit, n[i + 2..])
  {
    hide Calm, Utf8Size;
    var i := FirstBlank(n);
    var block := n[..i];
    CalmPart(limit, n, 0, i);
    CalmPart(limit, n, i + 2, |n|);
    assert n[0..i] == block && n[i + 2..|n|] == n[i + 2..];
    forall k ensures !BlankAt(block, k) {
      assert 0 <= k < i ==> !BlankAt(n, k);
    }
    CalmWhole(limit, block);
  }

  lemma CalmWhole(limit: nat, s: string)
    requires Calm(limit, s) && NoBlank(s)
    ensures Utf8Size(s) <= limit
  {
    assert s[0..|s|] == s;
  }

  lemma {:induction false} RunOfCalm(limit: nat, st: Stream, chunks: seq<string>)
    requires !st.failed && Calm(limit, Normalize(st.buffer + Concat(chunks)))
    ensures !Run(limit + 1, st, chunks).failed
    decreases |chunks|
  {
    hide Calm, Normalize, Cut, Utf8Size;
    if chunks != [] {
      var c, rest := chunks[0], Concat(chunks[1..]);
      var n := Normalize(st.buffer + c);
      Assoc(st.buffer, c, rest);
      FrontIsCalm(limit, st.buffer + c, rest);
      CutOfCalm(limit + 1, st.(buffer := n));
      var mid := Read(limit + 1, st, c);
      StillCalm(limit, st.buffer, c, rest, |n| - |mid.buffer|);
      RunOfCalm(limit, mid, chunks[1..]);
    }
  }

  // ---------------------------------------------------------------- blocks and the rest

  /** Between two blank lines stands a block with a line feed on each side. */
  lemma {:induction false} BlocksAreCalm(limit: nat, n: string)
    requires forall b | b in Complete(n) :: Utf8Size(b) + 2 <= limit
    requires Utf8Size(Tail(n)) + 1 <= limit
    ensures Calm(limit, "\n" + n)
    decreases |n|
  {
    hide Utf8Size, Calm, FirstBlank, Complete, Tail;
    var k := FirstBlank(n);
    if k == -1 {
      assert Tail(n) == n by { NoBlockYet(n); }
      AroundSize(n);
      ShortIsCalm(limit, "\n" + n);
    } else {
      var block, rest := n[..k], n[k + 2..];
      FirstBlock(n);
      assert Complete(n) == [block] + Complete(rest) by { NoneWithoutBlank(n); }
      assert block in Complete(n) && forall b | b in Complete(rest) :: b in Complete(n);
      BlocksAreCalm(limit, rest);
      AroundSize(block);
      ShortIsCalm(limit, "\n" + block + "\n");
      CalmAcrossBlank(limit, "\n" + block, rest);
      assert "\n" + n == "\n" + block + "\n\n" + rest;
    }
  }

  lemma NoBlockYet(n: string)
    requires NoBlank(n)
    ensures Tail(n) == n
  {
  }

  lemma NoneWithoutBlank(n: string)
    requires !NoBlank(n)
    ensures Complete(n) != []
  {
  }

  lemma AroundSize(block: string)
    ensures Utf8Size("\n" + block) == Utf8Size(block) + 1 && Utf8Size("\n" + block + "\n") == Utf8Size(block) + 2
  {
    hide Utf8Size;
    SizeAppend("\n" + block, "\n");
    SizeAppend("\n", block);
    OneCharSize('\n');
  }

  lemma ShortIsCalm(limit: nat, s: string)
    requires Utf8Size(s) <= limit
    ensures Calm(limit, s)
  {
    hide Utf8Size, FirstBlank;
    forall i, j | 0 <= i <= j <= |s| && NoBlank(s[i..j]) ensures Utf8Size(s[i..j]) <= limit {
      PartSize(s, i, j);
    }
  }

  /** A stretch without a blank line lies on one side of a blank line, with at most one of its line feeds. */
  lemma CalmAcrossBlank(limit: nat, a: string, b: string)
    requires Calm(limit, a + "\n") && Calm(limit, "\n" + b)
    ensures Calm(limit, a + "\n\n" + b)
  {
    hide Utf8Size;
    var s, before, after := a + "\n\n" + b, a + "\n", "\n" + b;
    forall i, j | 0 <= i <= j <= |s| && NoBlank(s[i..j]) ensures Utf8Size(s[i..j]) <= limit {
      if j <= |before| {
        assert s[0..|before|] == before;
        Slice(s, 0, |before|, i, j);
      } else if i >= |before| {
        assert s[|before|..|s|] == after;
        Slice(s, |before|, |s|, i - |before|, j - |before|);
      } else {
        HasBlank(s, i, j, |a|);
        assert false;
      }
    }
  }

  lemma PartSize(s: string, i: nat, j: nat)
    requires i <= j <= |s|
    ensures Utf8Size(s[i..j]) <= Utf8Size(s)
  {
    SizeTake(s, j);
    SizeTake(s[..j], i);
    assert s[..j][i..] == s[i..j];
  }

  /**
   A text of any kind and length, with CR CR LF or without, meets no size error under any
   split if its blocks stay three bytes and the rest two bytes under the limit.
   */
  lemma {:induction false} SmallBlocksAlwaysAccepted(limit: nat, text: string)
    requires forall b | b in Complete(Normalize(text)) :: Utf8Size(b) + 3 <= limit
    requires Utf8Size(Tail(Normalize(text))) + 2 <= limit
    ensures AcceptedEverywhere(limit, text)
  {
    hide Calm, Normalize, Complete, Tail, Run, Utf8Size;
    var n := Normalize(text);
    BlocksAreCalm(limit - 1, n);
    CalmPart(limit - 1, "\n" + n, 1, |n| + 1);
    assert ("\n" + n)[1..|n| + 1] == n;
    forall chunks | Concat(chunks) == text ensures !Run(limit, Start, chunks).failed {
      assert Start.buffer + Concat(chunks) == text;
      RunOfCalm(limit - 1, Start, chunks);
    }
  }

  /** So, with blocks of that size, CR CR LF alone decides whether the split matters. */
  lemma {:induction false} SmallBlocksSplitIff(limit: nat, text: string)
    requires forall b | b in Complete(Normalize(text)) :: Utf8Size(b) + 3 <= limit
    requires Utf8Size(Tail(Normalize(text))) + 2 <= limit
    ensures SameUnderEverySplit(limit, text) <==> NoCrCrLf(text)
  {
    hide Normalize, Complete, Tail, Run, Utf8Size;
    SmallBlocksAlwaysAccepted(limit, text);
    SameUnderEverySplitIff(limit, text);
  }
}
