/**
 Width-bounded text for the terminal: display width, clipping, the caret viewport of the
 input line, and word wrapping with a line limit.
 */
module TextLayout {

  // ---------------------------------------------------------------- widths

  function CharWidth(c: char): (w: nat)
    ensures w <= 2
  {
    var p := c as int;
    if 0x0300 <= p <= 0x036f || 0x1ab0 <= p <= 0x1aff || 0x1dc0 <= p <= 0x1dff || 0x20d0 <= p <= 0x20ff
       || 0xfe00 <= p <= 0xfe0f || 0xfe20 <= p <= 0xfe2f || p == 0x200d then 0
    else if 0x1100 <= p <= 0x115f || 0x2e80 <= p <= 0xa4cf || 0xac00 <= p <= 0xd7a3 || 0xf900 <= p <= 0xfaff
            || 0xfe30 <= p <= 0xfe4f || 0xff00 <= p <= 0xff60 || 0xffe0 <= p <= 0xffe6 then 2
    else 1
  }

  /** Which characters take two columns: Hangul, CJK and full-width forms. */
  lemma WideCharacters(c: char)
    ensures CharWidth(c) == 2 <==>
              || '\U{1100}' <= c <= '\U{115F}' || '\U{2E80}' <= c <= '\U{A4CF}' || '\U{AC00}' <= c <= '\U{D7A3}'
              || '\U{F900}' <= c <= '\U{FAFF}' || '\U{FE30}' <= c <= '\U{FE4F}'
              || '\U{FF00}' <= c <= '\U{FF60}' || '\U{FFE0}' <= c <= '\U{FFE6}'
  {
  }

  /** Which take none: combining marks, variation selectors and the zero-width joiner. */
  lemma ZeroWidthCharacters(c: char)
    ensures CharWidth(c) == 0 <==>
              || '\U{300}' <= c <= '\U{36F}' || '\U{1AB0}' <= c <= '\U{1AFF}' || '\U{1DC0}' <= c <= '\U{1DFF}'
              || '\U{20D0}' <= c <= '\U{20FF}' || '\U{FE00}' <= c <= '\U{FE0F}' || '\U{FE20}' <= c <= '\U{FE2F}'
              || c == '\U{200D}'
  {
  }

  /** The display width of a string: the sum over its characters. */
  function Width(s: string): nat {
    if s == "" then 0 else CharWidth(s[0]) + Width(s[1..])
  }

  lemma {:induction false} WidthAppend(a: string, b: string)
    ensures Width(a + b) == Width(a) + Width(b)
  {
    if a == "" {
      assert a + b == b;
    } else {
      WidthAppend(a[1..], b);
      assert (a + b)[1..] == a[1..] + b;
    }
  }

  lemma WidthSnoc(s: string, k: nat)
    requires k < |s|
    ensures Width(s[..k + 1]) == Width(s[..k]) + CharWidth(s[k])
  {
    assert s[..k + 1] == s[..k] + [s[k]];
    WidthAppend(s[..k], [s[k]]);
    assert [s[k]][1..] == "";
  }

  method StrWidth(value: string) returns (width: nat)
    ensures width == Width(value)
  {
    width := 0;
    for i := 0 to |value|
      invariant width == Width(value[..i])
    {
      WidthSnoc(value, i);
      width := width + CharWidth(value[i]);
    }
    assert value[..|value|] == value;
  }

  // ---------------------------------------------------------------- clipping

  /** The first k characters fit, and k cannot be larger. */
  predicate IsClip(s: string, width: int, k: nat) {
    && k <= |s|
    && (k == 0 || Width(s[..k]) <= width)
    && (k < |s| ==> Width(s[..k + 1]) > width)
  }

  /** The number of characters a clip keeps. */
  function ClipLength(s: string, width: int): (k: nat)
    ensures k <= |s|
  {
    if s == "" || CharWidth(s[0]) > width then 0 else 1 + ClipLength(s[1..], width - CharWidth(s[0]))
  }

  function Clipped(s: string, width: int): string {
    s[..ClipLength(s, width)]
  }

  /** A clip is the longest prefix that fits: every shorter prefix fits and every longer one does not. */
  lemma {:induction false} ClipIsLongest(s: string, width: int, k: nat)
    requires k <= |s|
    ensures k == 0 || (Width(s[..k]) <= width <==> k <= ClipLength(s, width))
    ensures Clipped(s, width) == "" || Width(Clipped(s, width)) <= width
    ensures IsClip(s, width, ClipLength(s, width))
  {
    var n := ClipLength(s, width);
    if s != "" {
      var w := CharWidth(s[0]);
      forall j | 0 < j <= |s| ensures Width(s[..j]) == w + Width(s[1..][..j - 1]) {
        assert s[..j][1..] == s[1..][..j - 1];
      }
      if w <= width {
        ClipIsLongest(s[1..], width - w, if k == 0 then 0 else k - 1);
        assert s[1..][..0] == "";
      }
    }
  }

  /** There is only one clip. */
  lemma {:induction false} ClipUnique(s: string, width: int, k: nat)
    requires IsClip(s, width, k)
    ensures k == ClipLength(s, width)
  {
    ClipIsLongest(s, width, k);
    if k < |s| { ClipIsLongest(s, width, k + 1); }
  }

  method Clip(value: string, width: int) returns (output: string)
    ensures output == Clipped(value, width)
  {
    var currentWidth := 0;
    output := "";
    var i := 0;
    while i < |value|
      invariant 0 <= i <= |value|
      invariant output == value[..i] && currentWidth == Width(output)
      invariant i == 0 || currentWidth <= width
    {
      var characterWidth := CharWidth(value[i]);
      WidthSnoc(value, i);
      if currentWidth + characterWidth > width {
        break;
      }
      output := output + [value[i]];
      currentWidth := currentWidth + characterWidth;
      i := i + 1;
    }
    ClipUnique(value, width, i);
  }

  // ---------------------------------------------------------------- the caret viewport

  function Max(a: int, b: int): int {
    if a >= b then a else b
  }

  /** s[k..] is the longest suffix no wider than the given width. */
  ghost predicate LongestSuffix(s: string, width: int, k: nat) {
    && k <= |s|
    && (k < |s| ==> Width(s[k..]) <= width)
    && forall j :: 0 <= j < k ==> Width(s[j..]) > width
  }

  /** How much of the text before the cursor is hidden. */
  function Hidden(before: string, width: int): (k: nat)
    ensures k <= |before|
  {
    if before == "" || Width(before) <= width then 0 else 1 + Hidden(before[1..], width)
  }

  lemma {:induction false} HiddenLeavesLongest(before: string, width: int)
    ensures LongestSuffix(before, width, Hidden(before, width))
  {
    if before != "" && Width(before) > width {
      HiddenLeavesLongest(before[1..], width);
      var k := Hidden(before, width);
      assert before[k..] == before[1..][k - 1..];
      forall j | 0 <= j < k ensures Width(before[j..]) > width {
        if j == 0 {
          assert before[0..] == before;
        } else {
          assert before[j..] == before[1..][j - 1..];
        }
      }
    } else {
      assert before[0..] == before;
    }
  }

  method DropToFit(before: string, width: int) returns (visibleBefore: string, clippedLeft: bool)
    ensures var hidden := Hidden(before, width);
            visibleBefore == before[hidden..] && clippedLeft == (hidden > 0)
  {
    visibleBefore, clippedLeft := before, false;
    ghost var dropped := 0;
    assert before[0..] == before;
    var w := StrWidth(visibleBefore);
    while |visibleBefore| > 0 && w > width
      invariant dropped <= |before| && visibleBefore == before[dropped..]
      invariant w == Width(visibleBefore)
      invariant clippedLeft == (dropped > 0)
      invariant dropped + Hidden(visibleBefore, width) == Hidden(before, width)
      decreases |visibleBefore|
    {
      visibleBefore, clippedLeft := visibleBefore[1..], true;
      dropped := dropped + 1;
      w := StrWidth(visibleBefore);
    }
  }

  /** The part of the shown text before the caret: a mark if something is hidden, then the visible rest. */
  function LeftPart(before: string, width: int): string {
    var hidden := Hidden(before, width);
    (if hidden > 0 then "<" else "") + before[hidden..]
  }

  lemma LeftPartFits(before: string, width: nat)
    ensures Width(LeftPart(before, width)) <= width + 1
    ensures var hidden := Hidden(before, width);
            Width(LeftPart(before, width)) == (if hidden > 0 then 1 else 0) + Width(before[hidden..])
  {
    var hidden := Hidden(before, width);
    HiddenLeavesLongest(before, width);
    WidthAppend("<", before[hidden..]);
    WidthAppend("", before[hidden..]);
    assert "<"[1..] == "" && Width("<") == 1;
  }

  /**
   What the input line shows, and the column of the caret in it: the longest part before
   the cursor that leaves a column free, then as much of the rest as fits.
   */
  method InputViewport(input: string, cursor: nat, width: int) returns (text: string, caretWidth: nat)
    requires cursor <= |input|
    ensures var bounded := Max(1, width);
            var left := LeftPart(input[..cursor], bounded - 1);
            && caretWidth == Width(left)
            && text == left + Clipped(input[cursor..], bounded - caretWidth)
            && caretWidth <= bounded && Width(text) <= bounded
  {
    var boundedWidth := Max(1, width);
    var before, after := input[..cursor], input[cursor..];
    var visibleBefore, clippedLeft := DropToFit(before, boundedWidth - 1);
    var prefix := if clippedLeft then "<" else "";
    var prefixWidth := StrWidth(prefix);
    var beforeWidth := StrWidth(visibleBefore);
    caretWidth := prefixWidth + beforeWidth;
    WidthAppend(prefix, visibleBefore);
    LeftPartFits(before, boundedWidth - 1);
    var afterText := Clip(after, Max(0, boundedWidth - caretWidth));
    text := prefix + visibleBefore + afterText;
    WidthAppend(prefix + visibleBefore, afterText);
    ClipIsLongest(after, boundedWidth - caretWidth, 0);
  }

  /** A suffix of a suffix is no wider. */
  lemma {:induction false} SuffixNoWider(s: string, j: nat, k: nat)
    requires j <= k <= |s|
    ensures Width(s[k..]) <= Width(s[j..])
    decreases k - j
  {
    if j < k {
      SuffixNoWider(s, j + 1, k);
      assert s[j..][1..] == s[j + 1..];
    }
  }

  /** Some suffix of the text is exactly this wide. */
  ghost predicate SuffixOfWidth(s: string, width: int) {
    exists j | 0 <= j <= |s| :: Width(s[j..]) == width
  }

  /**
   The caret stands on one of the columns exactly when the text before it leaves a column
   free, or no suffix of it is exactly one column narrower than the line; otherwise it stands
   just past the last column.
   */
  lemma {:induction false} CaretOnAColumnIff(before: string, width: int)
    ensures var bounded := Max(1, width);
            var caret := Width(LeftPart(before, bounded - 1));
            && caret <= bounded
            && (caret < bounded <==> Width(before) < bounded || !SuffixOfWidth(before, bounded - 1))
  {
    hide Width, CharWidth;
    var room := Max(1, width) - 1;
    var hidden := Hidden(before, room);
    LeftPartFits(before, room);
    HiddenLeavesLongest(before, room);
    assert before[0..] == before && before[|before|..] == "";
    WidthOfNothing();
    if SuffixOfWidth(before, room) {
      var j :| 0 <= j <= |before| && Width(before[j..]) == room;
      SuffixNoWider(before, hidden, j);
    }
  }

  lemma WidthOfNothing()
    ensures Width("") == 0
  {
  }

  lemma {:induction false} OneColumnWidth(s: string)
    requires forall c | c in s :: CharWidth(c) == 1
    ensures Width(s) == |s|
  {
    if s != "" {
      assert s[0] in s && forall c | c in s[1..] :: c in s;
      OneColumnWidth(s[1..]);
    }
  }

  /** With one-column characters the caret is past the end exactly when the text before it fills the line. */
  lemma CaretOfOneColumnText(before: string, width: int)
    requires forall c | c in before :: CharWidth(c) == 1
    ensures Width(LeftPart(before, Max(1, width) - 1)) == Max(1, width) <==> |before| >= Max(1, width)
  {
    hide CharWidth;
    var bounded := Max(1, width);
    CaretOnAColumnIff(before, width);
    OneColumnWidth(before);
    if |before| >= bounded {
      var j := |before| - (bounded - 1);
      assert forall c | c in before[j..] :: c in before;
      OneColumnWidth(before[j..]);
    }
  }

  /** Two letters in a line of two columns: the mark and the second letter fill it, and the caret comes after. */
  lemma CaretPastTheEnd()
    ensures LeftPart("ab", 1) == "<b" && Width(LeftPart("ab", 1)) == 2 == Max(1, 2)
  {
    var ab := "ab";
    assert ab[1..] == "b" && ab[1..][1..] == "";
    assert Width("b") == 1 by { assert "b"[1..] == ""; }
    assert Width(ab) == 2;
    assert Hidden("b", 1) == 0;
    assert Hidden(ab, 1) == 1;
    assert LeftPart(ab, 1) == "<b";
    assert "<b"[1..] == "b";
  }
}
