/**
 Word wrapping: the loop with its line limit, its early exits and its final slice, against
 the layout without a limit, and what that layout keeps of the text.
 */
module TextWrap {
  import opened JsText
  import opened TextLayout

  // ---------------------------------------------------------------- words

  /** `value.split(/\s+/)`: white space at an end gives an empty word there. */
  function SplitWords(s: string): (words: seq<string>)
    ensures |words| >= 1
    ensures forall w, c | w in words && c in w :: !IsSpace(c)
    decreases |s|
  {
    if s == "" then [""]
    else if IsSpace(s[0]) then [""] + SplitWords(TrimStart(s))
    else
      var rest := SplitWords(s[1..]);
      [[s[0]] + rest[0]] + rest[1..]
  }

  function InkOf(c: char): string {
    if IsSpace(c) then "" else [c]
  }

  /** The text without its white space. */
  function Ink(s: string): string {
    if s == "" then "" else InkOf(s[0]) + Ink(s[1..])
  }

  function Join(parts: seq<string>): string {
    if parts == [] then "" else parts[0] + Join(parts[1..])
  }

  lemma InkCons(c: char, s: string)
    ensures Ink([c] + s) == InkOf(c) + Ink(s)
  {
    assert ([c] + s)[1..] == s;
  }

  lemma Regroup(a: string, b: string, c: string)
    ensures (a + b) + c == a + (b + c)
  {
  }

  lemma {:induction false} InkAppend(a: string, b: string)
    ensures Ink(a + b) == Ink(a) + Ink(b)
  {
    hide InkOf;
    if a == "" {
      assert a + b == b;
    } else {
      InkAppend(a[1..], b);
      Regroup([a[0]], a[1..], b);
      assert [a[0]] + a[1..] == a;
      InkCons(a[0], a[1..] + b);
      Regroup(InkOf(a[0]), Ink(a[1..]), Ink(b));
    }
  }

  lemma {:induction false} InkWord(w: string)
    requires forall c | c in w :: !IsSpace(c)
    ensures Ink(w) == w
  {
    if w != "" { InkWord(w[1..]); }
  }

  lemma {:induction false} InkTrim(s: string)
    ensures Ink(TrimStart(s)) == Ink(s)
  {
    if s != "" && IsSpace(s[0]) { InkTrim(s[1..]); }
  }

  lemma JoinCons(word: string, words: seq<string>)
    ensures Join([word] + words) == word + Join(words)
  {
    assert ([word] + words)[1..] == words;
  }

  /** The words are the ink of the text, in order. */
  lemma {:induction false} WordsAreInk(s: string)
    ensures Join(SplitWords(s)) == Ink(s)
    decreases |s|
  {
    if s == "" {
      JoinCons("", []);
      assert [""] + [] == [""];
    } else if IsSpace(s[0]) {
      WordsAreInk(TrimStart(s));
      InkTrim(s);
      JoinCons("", SplitWords(TrimStart(s)));
    } else {
      WordsAreInk(s[1..]);
      var rest := SplitWords(s[1..]);
      JoinCons(rest[0], rest[1..]);
      assert rest == [rest[0]] + rest[1..];
      JoinCons([s[0]] + rest[0], rest[1..]);
      assert [s[0]] + (rest[0] + Join(rest[1..])) == ([s[0]] + rest[0]) + Join(rest[1..]);
    }
  }

  // ---------------------------------------------------------------- the layout without a limit

  /** A piece too wide for a line is cut into chunks as long as a chunk is not empty. */
  function Chunks(piece: string, width: int): seq<string>
    decreases |piece|
  {
    var chunk := Clipped(piece, width);
    if Width(piece) <= width || chunk == "" then [] else [chunk] + Chunks(piece[|chunk|..], width)
  }

  /** What is left of the piece after its chunks. */
  function Remainder(piece: string, width: int): string
    decreases |piece|
  {
    var chunk := Clipped(piece, width);
    if Width(piece) <= width || chunk == "" then piece else Remainder(piece[|chunk|..], width)
  }

  function Candidate(current: string, word: string): string {
    if current != "" then current + " " + word else word
  }

  predicate Overflows(current: string, word: string, width: int) {
    current != "" && Width(Candidate(current, word)) > width
  }

  /** The lines a word finishes, and the piece it leaves to be cut. */
  function Piece(current: string, word: string, width: int): string {
    if Overflows(current, word, width) then word else Candidate(current, word)
  }

  function Finished(current: string, word: string, width: int): seq<string> {
    if Overflows(current, word, width) then [current] else []
  }

  /** All lines of the words, given the line begun so far. */
  function Layout(words: seq<string>, current: string, width: int): seq<string>
    decreases |words|
  {
    if words == [] then (if current != "" then [current] else [])
    else
      var piece := Piece(current, words[0], width);
      Finished(current, words[0], width) + Chunks(piece, width) + Layout(words[1..], Remainder(piece, width), width)
  }

  /** The lines of a text on an unbounded page. */
  function FullLayout(value: string, width: int): seq<string> {
    Layout(SplitWords(value), "", width)
  }

  function Take(lines: seq<string>, n: int): seq<string> {
    lines[..Max(0, if n < |lines| then n else |lines|)]
  }

  /** `lines.slice(0, end)`, where a negative end counts from the back. */
  function SliceFromStart(lines: seq<string>, end: int): seq<string> {
    Take(lines, if end < 0 then |lines| + end else end)
  }

  // ---------------------------------------------------------------- the code

  /** What the loop guarantees of its lines: the whole layout is still ahead, or the limit is reached and kept. */
  ghost predicate OnTrack(lines: seq<string>, ahead: seq<string>, maxLines: int, full: seq<string>) {
    && (|lines| < maxLines ==> lines + ahead == full)
    && (|lines| >= maxLines ==> Max(0, maxLines) <= |full| && lines[..Max(0, maxLines)] == full[..Max(0, maxLines)])
  }

  lemma PushKeepsTrack(lines: seq<string>, line: string, ahead: seq<string>, maxLines: int, full: seq<string>)
    requires OnTrack(lines, [line] + ahead, maxLines, full)
    ensures OnTrack(lines + [line], ahead, maxLines, full)
  {
    var m := Max(0, maxLines);
    if |lines| < maxLines {
      assert lines + ([line] + ahead) == (lines + [line]) + ahead;
    } else {
      assert (lines + [line])[..m] == lines[..m];
    }
  }

  method CutPiece(piece: string, width: int, lines: seq<string>, maxLines: int, ghost ahead: seq<string>, ghost full: seq<string>)
    returns (candidate: string, lines': seq<string>)
    requires OnTrack(lines, Chunks(piece, width) + ahead, maxLines, full)
    ensures |lines'| < maxLines ==> candidate == Remainder(piece, width)
    ensures OnTrack(lines', ahead, maxLines, full)
    ensures |lines'| <= |lines| || |lines'| <= maxLines
    ensures |lines| >= maxLines ==> lines' == lines
  {
    candidate, lines' := piece, lines;
    while Width(candidate) > width && |lines'| < maxLines
      invariant OnTrack(lines', Chunks(candidate, width) + ahead, maxLines, full)
      invariant Remainder(candidate, width) == Remainder(piece, width)
      invariant |lines'| <= |lines| || |lines'| <= maxLines
      invariant |lines| >= maxLines ==> lines' == lines
      decreases |candidate|
    {
      var chunk := Clip(candidate, width);
      if chunk == "" {
        break;
      }
      var rest := candidate[|chunk|..];
      assert Chunks(candidate, width) + ahead == [chunk] + (Chunks(rest, width) + ahead);
      PushKeepsTrack(lines', chunk, Chunks(rest, width) + ahead, maxLines, full);
      lines' := lines' + [chunk];
      candidate := rest;
    }
    if |lines'| < maxLines {
      assert [] + ahead == ahead;
    }
  }

  /** One turn of the loop over the words; `stop` is its early exit. */
  method PlaceWord(word: string, current: string, width: int, lines: seq<string>, maxLines: int,
                   ghost after: seq<string>, ghost full: seq<string>)
    returns (current': string, lines': seq<string>, stop: bool)
    requires OnTrack(lines, Layout([word] + after, current, width), maxLines, full)
    requires |lines| <= Max(0, maxLines)
    ensures OnTrack(lines', if stop then [] else Layout(after, current', width), maxLines, full)
    ensures |lines'| <= Max(0, maxLines) + if stop then 1 else 0
    ensures stop ==> |lines'| >= maxLines
  {
    hide Layout, Chunks, Remainder, Width;
    var candidate := Candidate(current, word);
    ghost var piece := Piece(current, word, width);
    ghost var ahead := Layout(after, Remainder(piece, width), width);
    LayoutStep(word, after, current, width);
    lines', stop := lines, false;
    if Width(candidate) > width && current != "" {
      assert Layout([word] + after, current, width) == [current] + (Chunks(piece, width) + ahead);
      PushKeepsTrack(lines, current, Chunks(piece, width) + ahead, maxLines, full);
      lines', current' := lines + [current], word;
      if |lines'| >= maxLines {
        return current', lines', true;
      }
      candidate := word;
    }
    candidate, lines' := CutPiece(candidate, width, lines', maxLines, ahead, full);
    current' := candidate;
  }

  lemma LayoutStep(word: string, after: seq<string>, current: string, width: int)
    ensures var piece := Piece(current, word, width);
            Layout([word] + after, current, width)
            == Finished(current, word, width) + (Chunks(piece, width) + Layout(after, Remainder(piece, width), width))
  {
    assert ([word] + after)[1..] == after;
  }

  /** Wrapping is the first `maxLines` lines of the layout without a limit, whatever the width and the limit. */
  method Wrap(value: string, width: int, maxLines: int) returns (lines: seq<string>)
    ensures lines == Take(FullLayout(value, width), maxLines)
  {
    hide Width, Chunks, Remainder, Finished, Piece, Take, SplitWords;
    var words := SplitWords(value);
    ghost var full := FullLayout(value, width);
    lines := [];
    var current, i, stop := "", 0, false;
    ghost var ahead := Layout(words, current, width);
    assert words[0..] == words && [] + full == full;
    while i < |words| && !stop
      invariant 0 <= i <= |words|
      invariant OnTrack(lines, ahead, maxLines, full)
      invariant !stop ==> ahead == Layout(words[i..], current, width)
      invariant |lines| <= Max(0, maxLines) + if stop then 1 else 0
      invariant stop ==> |lines| >= maxLines
      decreases |words| - i, !stop
    {
      assert words[i..] == [words[i]] + words[i + 1..];
      current, lines, stop := PlaceWord(words[i], current, width, lines, maxLines, words[i + 1..], full);
      i := i + 1;
      ahead := if stop then [] else Layout(words[i..], current, width);
    }
    lines := FinishLines(current, lines, maxLines, ahead, full);
  }

  /** The line begun last is pushed if there is room for it, and the result is cut to the limit. */
  method FinishLines(current: string, lines: seq<string>, maxLines: int, ghost ahead: seq<string>, ghost full: seq<string>)
    returns (lines': seq<string>)
    requires OnTrack(lines, ahead, maxLines, full)
    requires |lines| < maxLines ==> ahead == if current != "" then [current] else []
    requires |lines| <= Max(0, maxLines) + 1
    ensures lines' == Take(full, maxLines)
  {
    lines' := lines;
    if current != "" && |lines| < maxLines {
      assert [current] == [current] + [];
      PushKeepsTrack(lines, current, [], maxLines, full);
      lines' := lines + [current];
    }
    lines' := SliceFromStart(lines', maxLines);
  }
}
