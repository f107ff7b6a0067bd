/**
 The wire format end to end: messages of any lines, written with either line terminator and
 cut anywhere, reach the frame decoder as the data of the stage events among them.
 */
module SseWire {
  import opened Wrappers
  import opened JsText
  import opened Sse
  import opened SseReassembly
  import opened SseTheorems

  // ---------------------------------------------------------------- what a sender writes

  /**
   A line of a message: an event name between white space, data after white space, or any
   other line, such as an `id:` or `retry:` field, a comment, or a field nobody knows.
   */
  datatype Line =
    | Name(lead: string, name: string, trail: string)
    | Data(lead: string, text: string)
    | Other(text: string)

  datatype Message = Message(lines: seq<Line>, crlf: bool)

  function Text(l: Line): string {
    match l
    case Name(lead, name, trail) => "event:" + lead + name + trail
    case Data(lead, text) => "data:" + lead + text
    case Other(text) => text
  }

  function Texts(lines: seq<Line>): (r: seq<string>)
    ensures |r| == |lines|
  {
    if lines == [] then [] else [Text(lines[0])] + Texts(lines[1..])
  }

  predicate Blank(s: string) {
    forall c | c in s :: IsSpace(c)
  }

  /** A line without terminators that is read as what it is; only an empty line is impossible. */
  predicate Written(l: Line) {
    && Plain(Text(l))
    && match l
       case Name(lead, name, trail) =>
         Blank(lead) && Blank(trail) && (name == "" || (!IsSpace(name[0]) && !IsSpace(name[|name| - 1])))
       case Data(lead, text) => Blank(lead) && (text == "" || !IsSpace(text[0]))
       case Other(text) => text != "" && !("event:" <= text) && !("data:" <= text)
  }

  predicate Sendable(m: Message) {
    m.lines != [] && forall l | l in m.lines :: Written(l)
  }

  function Terminate(lines: seq<string>, eol: string, rest: string): string {
    if lines == [] then rest else lines[0] + eol + Terminate(lines[1..], eol, rest)
  }

  function Eol(m: Message): string {
    if m.crlf then "\r\n" else "\n"
  }

  /** The messages as sent: each one's lines, then an empty line. */
  function Wire(messages: seq<Message>): string {
    if messages == [] then "" else Terminate(Texts(messages[0].lines) + [""], Eol(messages[0]), Wire(messages[1..]))
  }

  // ---------------------------------------------------------------- what a receiver hands on

  /** The name of the last line that gives one. */
  function EventName(lines: seq<Line>, known: string): string {
    if lines == [] then known else EventName(lines[1..], if lines[0].Name? then lines[0].name else known)
  }

  /** The data lines alone. */
  function DataTexts(lines: seq<Line>): seq<string> {
    if lines == [] then [] else (if lines[0].Data? then [lines[0].text] else []) + DataTexts(lines[1..])
  }

  /** For each message named `stage`, and for no other, its data lines, unless nothing is left. */
  function Received(messages: seq<Message>): seq<string> {
    if messages == [] then []
    else
      var m := messages[0];
      var data := JoinLines(DataTexts(m.lines));
      (if EventName(m.lines, "message") == "stage" && data != "" then [data] else []) + Received(messages[1..])
  }

  // ---------------------------------------------------------------- one message

  lemma Prefixed(p: string, a: string, b: string)
    ensures StartsWith(p + a + b, p) && (p + a + b)[|p|..] == a + b
  {
    assert p + a + b == p + (a + b);
  }

  /** A line cannot start in two ways. */
  lemma OneStart(t: string, p: string, q: string)
    requires StartsWith(t, p) && p != "" && q != "" && p[0] != q[0]
    ensures !StartsWith(t, q)
  {
    FirstOf(t, p);
    if StartsWith(t, q) {
      FirstOf(t, q);
      assert false;
    }
  }

  lemma FirstOf(t: string, p: string)
    requires StartsWith(t, p) && p != ""
    ensures t[0] == p[0]
  {
    assert t[..|p|][0] == t[0];
  }

  lemma DataParts(rest: string) returns (lead: string, text: string)
    ensures rest == lead + text && Blank(lead) && (text == "" || !IsSpace(text[0]))
  {
    text := TrimStart(rest);
    lead := rest[..|rest| - |text|];
    TrimStartDrops(rest);
  }

  lemma NameParts(rest: string) returns (lead: string, name: string, trail: string)
    ensures rest == lead + name + trail && Blank(lead) && Blank(trail)
    ensures name == "" || (!IsSpace(name[0]) && !IsSpace(name[|name| - 1]))
  {
    hide TrimStart, TrimEnd;
    var text;
    lead, text := DataParts(rest);
    name := TrimEnd(text);
    trail := text[|name|..];
    TrimEndDrops(text);
    assert name != "" ==> name[0] == text[0];
    assert text == name + trail && rest == lead + (name + trail);
  }

  lemma AfterPrefix(f: string, p: string) returns (rest: string)
    requires p <= f
    ensures f == p + rest
  {
    rest := f[|p|..];
  }

  /** Nothing is left out: every line without terminators that is not empty is one of these. */
  lemma {:induction false} AnyLineIsWritten(f: string) returns (l: Line)
    requires Plain(f) && f != ""
    ensures Written(l) && Text(l) == f
  {
    hide Plain;
    if "event:" <= f {
      var rest := AfterPrefix(f, "event:");
      var lead, name, trail := NameParts(rest);
      l := Name(lead, name, trail);
      Assoc("event:", lead, name);
      Assoc("event:", lead + name, trail);
    } else if "data:" <= f {
      var rest := AfterPrefix(f, "data:");
      var lead, text := DataParts(rest);
      l := Data(lead, text);
      Assoc("data:", lead, text);
    } else {
      l := Other(f);
    }
  }

  lemma NameDecodes(l: Line, event: string)
    requires Written(l) && l.Name?
    ensures EventAfter(event, Text(l)) == l.name && DataOf(Text(l)) == [] && Text(l) != ""
  {
    hide Trim, TrimStart, StartsWith, Plain;
    Prefixed("event:", l.lead + l.name, l.trail);
    assert Text(l) == "event:" + (l.lead + l.name) + l.trail;
    OneStart(Text(l), "event:", "data:");
    TrimOf(l.lead, l.name, l.trail);
  }

  lemma DataDecodes(l: Line, event: string)
    requires Written(l) && l.Data?
    ensures EventAfter(event, Text(l)) == event && DataOf(Text(l)) == [l.text] && Text(l) != ""
  {
    hide Trim, TrimStart, StartsWith, Plain;
    Prefixed("data:", l.lead, l.text);
    OneStart(Text(l), "data:", "event:");
    TrimStartOf(l.lead, l.text);
  }

  lemma LineDecodes(l: Line, event: string)
    requires Written(l)
    ensures EventAfter(event, Text(l)) == if l.Name? then l.name else event
    ensures DataOf(Text(l)) == if l.Data? then [l.text] else []
    ensures Text(l) != ""
  {
    hide Trim, TrimStart;
    match l
    case Name(_, _, _) => NameDecodes(l, event);
    case Data(_, _) => DataDecodes(l, event);
    case Other(text) =>
      assert StartsWith(text, "event:") ==> "event:" <= text;
      assert StartsWith(text, "data:") ==> "data:" <= text;
  }

  lemma {:induction false} LinesDecode(lines: seq<Line>, event: string)
    requires forall l | l in lines :: Written(l)
    ensures EventField(Texts(lines), event) == EventName(lines, event)
    ensures DataLines(Texts(lines)) == DataTexts(lines)
    ensures forall f | f in Texts(lines) :: Plain(f) && f != ""
  {
    hide EventAfter, DataOf, Text;
    if lines != [] {
      var l := lines[0];
      assert l in lines;
      LineDecodes(l, event);
      LinesDecode(lines[1..], if l.Name? then l.name else event);
      assert Texts(lines)[1..] == Texts(lines[1..]);
    }
  }

  lemma PayloadOfLines(lines: seq<string>, event: string)
    requires lines != [] && forall l | l in lines :: '\n' !in l
    requires event == "message"
    ensures var data := JoinLines(DataLines(lines));
            Payload(JoinLines(lines)) == if EventField(lines, event) == "stage" && data != "" then Some(data) else None
  {
    SplitJoinLines(lines);
  }

  lemma PayloadOfMessage(m: Message)
    requires Sendable(m)
    ensures var data := JoinLines(DataTexts(m.lines));
            Payload(JoinLines(Texts(m.lines)))
            == if EventName(m.lines, "message") == "stage" && data != "" then Some(data) else None
  {
    LinesDecode(m.lines, "message");
    PayloadOfLines(Texts(m.lines), "message");
  }

  // ---------------------------------------------------------------- the wire text

  lemma LineNormalizes(line: string, eol: string, rest: string)
    requires Plain(line) && (eol == "\n" || eol == "\r\n") && NoCrCrLf(rest)
    ensures Normalize(line + eol + rest) == line + "\n" + Normalize(rest)
    ensures NoCrCrLf(line + eol + rest)
  {
    assert line + eol + rest == line + (eol + rest);
    var t := eol + rest;
    forall i ensures !CrCrLfAt(t, i) {
      assert !CrCrLfAt(rest, i - |eol|);
    }
    PlainPrefix(line, t);
    if eol == "\n" {
      NormalizeCons('\n', rest);
      assert ['\n'] == "\n";
    } else {
      NormalizeCrLf(rest);
    }
    assert line + ("\n" + Normalize(rest)) == line + "\n" + Normalize(rest);
  }

  lemma {:induction false} TerminateNormalizes(lines: seq<string>, eol: string, rest: string)
    requires (forall l | l in lines :: Plain(l)) && (eol == "\n" || eol == "\r\n") && NoCrCrLf(rest)
    ensures Normalize(Terminate(lines, eol, rest)) == Terminate(lines, "\n", Normalize(rest))
    ensures NoCrCrLf(Terminate(lines, eol, rest))
  {
    if lines != [] {
      assert lines[0] in lines;
      TerminateNormalizes(lines[1..], eol, rest);
      LineNormalizes(lines[0], eol, Terminate(lines[1..], eol, rest));
    }
  }

  lemma {:induction false} TerminateIsBlock(lines: seq<string>, rest: string)
    requires lines != []
    ensures Terminate(lines + [""], "\n", rest) == JoinLines(lines) + "\n\n" + rest
    decreases |lines|
  {
    var all := lines + [""];
    assert all[1..] == lines[1..] + [""];
    if |lines| == 1 {
      assert all[1..] == [""] && [""][1..] == [];
      assert Terminate([""], "\n", rest) == "" + "\n" + rest == "\n" + rest;
      assert lines[0] + "\n" + ("\n" + rest) == lines[0] + "\n\n" + rest;
    } else {
      TerminateIsBlock(lines[1..], rest);
      var inner := JoinLines(lines[1..]);
      assert lines[0] + "\n" + (inner + "\n\n" + rest) == (lines[0] + "\n" + inner) + "\n\n" + rest;
    }
  }

  /** Non-empty lines joined hold no blank line of their own. */
  lemma {:induction false} JoinedHasNoBlank(lines: seq<string>, rest: string)
    requires lines != [] && forall l | l in lines :: Plain(l) && l != ""
    ensures var b := JoinLines(lines);
            && b != "" && b[0] != '\n'
            && forall k :: 0 <= k < |b| ==> !BlankAt(b + "\n\n" + rest, k)
    decreases |lines|
  {
    var head, b := lines[0], JoinLines(lines);
    assert head in lines && head[0] in head;
    var t := b + "\n\n" + rest;
    if |lines| > 1 {
      var inner := JoinLines(lines[1..]);
      JoinedHasNoBlank(lines[1..], rest);
      var u := inner + "\n\n" + rest;
      assert t == head + ("\n" + u);
      PlainPrefix(head, "\n" + u);
      forall k | 0 <= k < |b| ensures !BlankAt(t, k) {
        if k == |head| {
          assert t[k + 1] == u[0];
        } else if k > |head| {
          assert !BlankAt(u, k - |head| - 1);
        }
      }
    } else {
      assert t == head + ("\n\n" + rest);
      PlainPrefix(head, "\n\n" + rest);
    }
  }

  lemma BlockOfMessage(m: Message, rest: string)
    requires Sendable(m)
    ensures var lines := Texts(m.lines); Complete(JoinLines(lines) + "\n\n" + rest) == [JoinLines(lines)] + Complete(rest)
  {
    var b := JoinLines(Texts(m.lines));
    var t := b + "\n\n" + rest;
    LinesDecode(m.lines, "message");
    JoinedHasNoBlank(Texts(m.lines), rest);
    FirstBlankIs(t, |b|);
    assert t[..|b|] == b && t[|b| + 2..] == rest;
  }

  lemma WireStep(m: Message, rest: string)
    requires Sendable(m) && NoCrCrLf(rest)
    ensures var text := Terminate(Texts(m.lines) + [""], Eol(m), rest);
            && NoCrCrLf(text)
            && Complete(Normalize(text)) == [JoinLines(Texts(m.lines))] + Complete(Normalize(rest))
  {
    LinesDecode(m.lines, "message");
    assert Plain("");
    TerminateNormalizes(Texts(m.lines) + [""], Eol(m), rest);
    TerminateIsBlock(Texts(m.lines), Normalize(rest));
    BlockOfMessage(m, Normalize(rest));
  }

  lemma PayloadsCons(block: string, blocks: seq<string>)
    ensures Payloads([block] + blocks) ==
            (match Payload(block) case Some(data) => [data] case None => []) + Payloads(blocks)
  {
    assert ([block] + blocks)[1..] == blocks;
  }

  lemma {:induction false} WireBlocks(messages: seq<Message>)
    requires forall m | m in messages :: Sendable(m)
    ensures NoCrCrLf(Wire(messages))
    ensures Payloads(Complete(Normalize(Wire(messages)))) == Received(messages)
  {
    if messages == [] {
      assert Complete("") == [];
    } else {
      var m, rest := messages[0], Wire(messages[1..]);
      assert m in messages;
      WireBlocks(messages[1..]);
      WireStep(m, rest);
      PayloadOfMessage(m);
      PayloadsCons(JoinLines(Texts(m.lines)), Complete(Normalize(rest)));
    }
  }

  /**
   Whatever the other lines, the line terminators and the cuts, an accepted stream hands on
   the data of every stage event, once and in order, and nothing else.
   */
  lemma {:induction false} EventsArriveInOrder(limit: nat, messages: seq<Message>, chunks: seq<string>)
    requires forall m | m in messages :: Sendable(m)
    requires Concat(chunks) == Wire(messages)
    requires !Run(limit, Start, chunks).failed
    ensures Payloads(Run(limit, Start, chunks).blocks) == Received(messages)
  {
    WireBlocks(messages);
    StreamIsOneShot(limit, chunks);
  }

  /** The code on such a stream: unless it meets a size error, it delivers the data of the stage events. */
  method Receive(limit: nat, ghost messages: seq<Message>, chunks: seq<string>) returns (delivered: seq<string>, closed: bool)
    requires forall m | m in messages :: Sendable(m)
    requires Concat(chunks) == Wire(messages)
    ensures closed ==> delivered == Received(messages)
  {
    delivered, closed := ConsumeSse(limit, chunks);
    if closed { EventsArriveInOrder(limit, messages, chunks); }
  }

  // ---------------------------------------------------------------- which events come back as sent

  /** What was sent in the data lines: the format allows one space after the colon. */
  function SentTexts(lines: seq<Line>): seq<string> {
    if lines == [] then [] else SentLine(lines[0]) + SentTexts(lines[1..])
  }

  function SentLine(l: Line): seq<string> {
    match l
    case Data(lead, text) => [if lead != "" && lead[0] == ' ' then lead[1..] + text else lead + text]
    case _ => []
  }

  /** No data line has white space beyond that one space. */
  predicate NothingToTrim(lines: seq<Line>) {
    forall l | l in lines && l.Data? :: l.lead == "" || l.lead == " "
  }

  lemma {:induction false} TextsShorter(lines: seq<Line>)
    ensures |DataTexts(lines)| == |SentTexts(lines)|
    ensures |JoinLines(DataTexts(lines))| <= |JoinLines(SentTexts(lines))|
    ensures JoinLines(DataTexts(lines)) == JoinLines(SentTexts(lines)) <==> NothingToTrim(lines)
  {
    hide JoinLines;
    if lines != [] {
      var l, rest := lines[0], lines[1..];
      TextsShorter(rest);
      assert NothingToTrim(lines) <==> NothingToTrim([l]) && NothingToTrim(rest);
      if l.Data? {
        var sent := SentLine(l)[0];
        assert SentLine(l) == [sent] && |l.text| <= |sent|;
        assert |l.text| == |sent| <==> NothingToTrim([l]);
        assert NothingToTrim([l]) ==> l.text == sent;
        JoinedCons(l.text, DataTexts(rest), sent, SentTexts(rest));
      } else {
        assert [] + DataTexts(rest) == DataTexts(rest) && [] + SentTexts(rest) == SentTexts(rest);
      }
    } else {
      assert NothingToTrim([]);
    }
  }

  lemma JoinedCons(a: string, x: seq<string>, b: string, y: seq<string>)
    requires |a| <= |b| && |x| == |y| && |JoinLines(x)| <= |JoinLines(y)|
    requires |a| == |b| ==> a == b
    ensures |JoinLines([a] + x)| <= |JoinLines([b] + y)|
    ensures JoinLines([a] + x) == JoinLines([b] + y) <==> a == b && JoinLines(x) == JoinLines(y)
  {
    assert ([a] + x)[1..] == x && ([b] + y)[1..] == y;
    var s, t := JoinLines([a] + x), JoinLines([b] + y);
    if x != [] && s == t {
      assert |a| == |b|;
      assert s == (a + "\n") + JoinLines(x) && t == (b + "\n") + JoinLines(y);
      assert s[|a| + 1..] == JoinLines(x) && t[|b| + 1..] == JoinLines(y);
    }
  }

  /**
   A message comes back as it was sent exactly when it is a stage event with data of which
   no line starts with white space beyond the one space the format allows.
   */
  lemma {:induction false} MessageComesBackIff(m: Message)
    requires Sendable(m)
    ensures Received([m]) == [JoinLines(SentTexts(m.lines))]
            <==> EventName(m.lines, "message") == "stage" && JoinLines(SentTexts(m.lines)) != "" && NothingToTrim(m.lines)
  {
    TextsShorter(m.lines);
    ReceivedOne([m]);
  }

  lemma ReceivedOne(messages: seq<Message>)
    requires |messages| == 1
    ensures var m := messages[0];
            var data := JoinLines(DataTexts(m.lines));
            Received(messages) == if EventName(m.lines, "message") == "stage" && data != "" then [data] else []
  {
    assert messages[1..] == [];
  }
}
