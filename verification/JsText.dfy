/**
 The string operations of the JavaScript standard library that the command-line
 sources call. A string is a sequence of Unicode scalar values.
 */
module JsText {

  /** White space and line terminators as `trim`, `trimStart` and the regular expression class \s see them. */
  predicate IsSpace(c: char) {
    var p := c as int;
    9 <= p <= 13 || p == 0x20 || p == 0xA0 || p == 0x1680 || 0x2000 <= p <= 0x200A
    || p == 0x2028 || p == 0x2029 || p == 0x202F || p == 0x205F || p == 0x3000 || p == 0xFEFF
  }

  /** The characters of ECMAScript's WhiteSpace and LineTerminator productions. */
  lemma SpacesAre(c: char)
    ensures IsSpace(c) <==>
              || c in "\t\n\U{B}\U{C}\r \U{A0}\U{1680}\U{2028}\U{2029}\U{202F}\U{205F}\U{3000}\U{FEFF}"
              || '\U{2000}' <= c <= '\U{200A}'
  {
  }

  function TrimStart(s: string): (r: string)
    ensures |r| <= |s| && r == s[|s| - |r|..]
    ensures r == "" || !IsSpace(r[0])
    ensures r == s <==> s == "" || !IsSpace(s[0])
  {
    if s != "" && IsSpace(s[0]) then TrimStart(s[1..]) else s
  }

  /** Only white space is dropped. */
  lemma {:induction false} TrimStartDrops(s: string)
    ensures forall c | c in s[..|s| - |TrimStart(s)|] :: IsSpace(c)
  {
    hide IsSpace;
    if s != "" && IsSpace(s[0]) {
      TrimStartDrops(s[1..]);
      var n := |s| - |TrimStart(s)|;
      assert s[..n] == [s[0]] + s[1..][..n - 1];
    }
  }

  function TrimEnd(s: string): (r: string)
    ensures |r| <= |s| && r == s[..|r|]
    ensures r == "" || !IsSpace(r[|r| - 1])
  {
    if s != "" && IsSpace(s[|s| - 1]) then TrimEnd(s[..|s| - 1]) else s
  }

  function Trim(s: string): (r: string)
    ensures |r| <= |s| && forall c | c in r :: c in s
    ensures r == "" || (!IsSpace(r[0]) && !IsSpace(r[|r| - 1]))
  {
    TrimEnd(TrimStart(s))
  }

  lemma TrimNothing(t: string)
    requires t == "" || !IsSpace(t[0])
    ensures TrimStart(t) == t
  {
  }

  lemma TrimOne(c: char, s: string)
    requires IsSpace(c)
    ensures TrimStart([c] + s) == TrimStart(s)
  {
    assert ([c] + s)[1..] == s;
  }

  lemma BlankTail(lead: string)
    requires lead != "" && forall c | c in lead :: IsSpace(c)
    ensures IsSpace(lead[0]) && forall c | c in lead[1..] :: IsSpace(c)
  {
    hide IsSpace;
    assert lead[0] in lead;
  }

  lemma Split(a: string, b: string)
    requires a != ""
    ensures a + b == [a[0]] + (a[1..] + b)
  {
  }

  /** White space before a text is what `trimStart` removes. */
  lemma {:induction false} TrimStartOf(lead: string, t: string)
    requires (forall c | c in lead :: IsSpace(c)) && (t == "" || !IsSpace(t[0]))
    ensures TrimStart(lead + t) == t
  {
    hide TrimStart, IsSpace;
    if lead == "" {
      assert lead + t == t;
      TrimNothing(t);
    } else {
      BlankTail(lead);
      TrimStartOf(lead[1..], t);
      Split(lead, t);
      TrimOne(lead[0], lead[1..] + t);
    }
  }

  lemma {:induction false} TrimEndDrops(s: string)
    ensures forall c | c in s[|TrimEnd(s)|..] :: IsSpace(c)
    decreases |s|
  {
    if s != "" && IsSpace(s[|s| - 1]) {
      var front := s[..|s| - 1];
      TrimEndDrops(front);
      var n := |TrimEnd(s)|;
      assert s[n..] == front[n..] + [s[|s| - 1]];
    }
  }

  lemma KeepsInk(t: string)
    requires t == "" || !IsSpace(t[|t| - 1])
    ensures TrimEnd(t) == t
  {
  }

  lemma TrimLast(s: string, c: char)
    requires IsSpace(c)
    ensures TrimEnd(s + [c]) == TrimEnd(s)
  {
    assert (s + [c])[..|s|] == s;
  }

  lemma {:induction false} TrimEndOf(t: string, trail: string)
    requires (forall c | c in trail :: IsSpace(c)) && (t == "" || !IsSpace(t[|t| - 1]))
    ensures TrimEnd(t + trail) == t
    decreases |trail|
  {
    hide TrimEnd;
    if trail == "" {
      assert t + trail == t;
      KeepsInk(t);
    } else {
      var n := |trail| - 1;
      assert trail[n] in trail;
      assert forall c | c in trail[..n] :: c in trail;
      TrimEndOf(t, trail[..n]);
      assert t + trail == (t + trail[..n]) + [trail[n]];
      TrimLast(t + trail[..n], trail[n]);
    }
  }

  /** White space around a text is what `trim` removes. */
  lemma {:induction false} TrimOf(lead: string, t: string, trail: string)
    requires (forall c | c in lead :: IsSpace(c)) && (forall c | c in trail :: IsSpace(c))
    requires t == "" || (!IsSpace(t[0]) && !IsSpace(t[|t| - 1]))
    ensures Trim(lead + t + trail) == t
  {
    hide TrimStart, TrimEnd;
    if t == "" {
      assert lead + t + trail == (lead + trail) + "";
      TrimStartOf(lead + trail, "");
      TrimEndOf("", "");
      assert "" + "" == "";
    } else {
      assert lead + t + trail == lead + (t + trail);
      TrimStartOf(lead, t + trail);
      TrimEndOf(t, trail);
    }
  }

  predicate StartsWith(s: string, prefix: string) {
    |prefix| <= |s| && s[..|prefix|] == prefix
  }

  /** `s.split("\n")`: one more piece than there are line feeds. */
  function SplitLines(s: string): (lines: seq<string>)
    ensures |lines| >= 1
    ensures forall l | l in lines :: '\n' !in l
  {
    if s == "" then [""]
    else if s[0] == '\n' then [""] + SplitLines(s[1..])
    else
      var rest := SplitLines(s[1..]);
      [[s[0]] + rest[0]] + rest[1..]
  }

  /** `lines.join("\n")`. */
  function JoinLines(lines: seq<string>): string {
    if |lines| == 0 then ""
    else if |lines| == 1 then lines[0]
    else lines[0] + "\n" + JoinLines(lines[1..])
  }

  /** Splitting at line feeds undoes joining with them. */
  lemma {:induction false} SplitJoinLines(lines: seq<string>)
    requires |lines| >= 1
    requires forall l | l in lines :: '\n' !in l
    ensures SplitLines(JoinLines(lines)) == lines
  {
    if |lines| == 1 {
      SplitUnbroken(lines[0], "");
      assert lines[0] + "" == lines[0];
      assert SplitLines("") == [""];
    } else {
      SplitJoinLines(lines[1..]);
      var rest := JoinLines(lines[1..]);
      var after := "\n" + rest;
      SplitUnbroken(lines[0], after);
      assert lines[0] + "\n" + rest == lines[0] + after;
      assert after[1..] == rest;
      assert SplitLines(after) == [""] + lines[1..];
      assert lines[0] + "" == lines[0];
    }
  }

  lemma {:induction false} SplitUnbroken(line: string, rest: string)
    requires '\n' !in line
    ensures SplitLines(line + rest) == [line + SplitLines(rest)[0]] + SplitLines(rest)[1..]
  {
    if line == "" {
      assert line + rest == rest;
      assert line + SplitLines(rest)[0] == SplitLines(rest)[0];
    } else {
      SplitUnbroken(line[1..], rest);
      assert (line + rest)[0] == line[0] && (line + rest)[1..] == line[1..] + rest;
      assert [line[0]] + (line[1..] + SplitLines(rest)[0]) == line + SplitLines(rest)[0];
    }
  }
}
