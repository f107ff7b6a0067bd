/** What single keys do, by the characters a terminal sends for them. */
module EditorKeys {
  import opened Wrappers
  import opened JsText
  import opened Sequences
  import opened LineEditor
  import opened EditorLaws

  predicate Ready(s: State) {
    !s.busy && !s.finished
  }

  predicate Printable(text: string) {
    forall c | c in text :: !Control(c) && c != '\n'
  }

  /** The controls: those of ASCII and Latin-1 but for the line feed, and the ones that change the writing direction. */
  lemma ControlsAre(c: char)
    ensures Control(c) <==>
              || (c < ' ' && c != '\n') || '\U{7F}' <= c <= '\U{9F}'
              || '\U{202A}' <= c <= '\U{202E}' || '\U{2066}' <= c <= '\U{2069}'
  {
  }

  lemma {:induction false} CleanedPrintable(text: string)
    requires Printable(text)
    ensures Cleaned(text) == text
  {
    if text != "" {
      assert text[0] in text;
      assert forall c | c in text[1..] :: c in text;
      CleanedPrintable(text[1..]);
    }
  }

  /** Printable text goes in front of the caret, as much of it as the line has room for. */
  lemma {:induction false} PrintableIsTyped(s: State, text: string)
    requires Ready(s) && text != "" && Printable(text) && |s.before| + |s.after| <= 4096
    ensures var room := 4096 - |s.before| - |s.after|;
            Step(s, Key(text)) == s.(before := s.before + if |text| <= room then text else text[..room])
  {
    hide Decode, LineEnd, Cleaned;
    OrdinaryIsText(text);
    CleanedPrintable(text);
    assert text[..|text|] == text;
    assert |text| > 4096 ==> text[..4096][..4096 - |s.before| - |s.after|] == text[..4096 - |s.before| - |s.after|];
  }

  /** A tab types two spaces. */
  lemma {:induction false} TabIsTwoSpaces(s: State)
    requires Ready(s) && |s.before| + |s.after| <= 4094
    ensures Step(s, Key("\t")) == s.(before := s.before + "  ")
  {
    hide Decode, LineEnd;
    OrdinaryIsText("\t");
    assert "\t"[..1] == "\t" && "\t"[1..] == "";
    assert Cleaned("\t") == "  ";
  }

  /** Other control characters inside a paste are dropped. */
  lemma {:induction false} ControlsAreDropped(a: string, c: char, b: string)
    requires Printable(a) && Printable(b) && Control(c) && c != '\t' && c != '\r'
    ensures Cleaned(a + [c] + b) == a + b
  {
    hide Control;
    if a == "" {
      assert a + [c] + b == [c] + b && ([c] + b)[1..] == b;
      CleanedPrintable(b);
      assert Shown(c) + b == b && "" + b == b;
    } else {
      assert a[0] in a;
      assert forall d | d in a[1..] :: d in a;
      ControlsAreDropped(a[1..], c, b);
      assert (a + [c] + b)[0] == a[0] && (a + [c] + b)[1..] == a[1..] + [c] + b;
      assert a[0] != '\r' by { assert Control('\r') by { ReturnIsControl(); } }
      TabIsControl();
      assert [a[0]] + (a[1..] + b) == a + b;
    }
  }

  lemma ReturnIsControl()
    ensures Control('\r')
  {
  }

  lemma TabIsControl()
    ensures Control('\t')
  {
  }

  /** Ctrl-U empties the line. */
  lemma {:induction false} CtrlUEmptiesTheLine(s: State)
    requires Ready(s)
    ensures Step(s, Key("\U{15}")) == s.(before := "", after := "")
  {
  }

  /** Ctrl-D ends the session exactly on an empty line and does nothing otherwise. */
  lemma {:induction false} CtrlDEndsIff(s: State)
    requires Ready(s)
    ensures Step(s, Key("\U{4}")) == if s.before == "" && s.after == "" then s.(finished := true) else s
  {
    assert s.before + s.after == "" <==> s.before == "" && s.after == "";
  }

  /** Ctrl-C ends the session at any time; while an answer is due no other key does anything. */
  lemma {:induction false} WhileBusy(s: State, data: string)
    requires !s.finished
    ensures Step(s, Key("\U{3}")) == s.(finished := true)
    ensures s.busy && data != "\U{3}" ==> Step(s, Key(data)) == s
  {
    hide Edited;
    if s.busy && data != "\U{3}" { OnlyCtrlC(data); }
    assert Edited(s, Interrupt, "\U{3}") == s.(finished := true) by { InterruptEnds(s); }
  }

  lemma OnlyCtrlC(data: string)
    ensures Decode(data).Interrupt? <==> data == "\U{3}"
  {
  }

  lemma InterruptEnds(s: State)
    ensures Edited(s, Interrupt, "\U{3}") == s.(finished := true)
  {
  }

  /**
   Enter takes the line without the white space around it as the question: nothing on an
   empty one, the end of the session on an exit word, and otherwise a question that is
   recorded, unless it repeats the latest, and awaits its answer.
   */
  lemma {:induction false} EnterAsks(s: State, lead: string, question: string, trail: string)
    requires Ready(s) && s.before + s.after == lead + question + trail
    requires (forall c | c in lead :: IsSpace(c)) && (forall c | c in trail :: IsSpace(c))
    requires question == "" || (!IsSpace(question[0]) && !IsSpace(question[|question| - 1]))
    ensures var t := Step(s, Key("\r"));
            && t.before == "" && t.after == "" && t.index == None && t.conversation == s.conversation
            && t.finished == (question == "/exit" || question == "/quit" || question == "/q")
            && t.busy == (question != "" && !t.finished)
            && (t.busy ==> t.asked == question)
            && t.history == (if t.busy && (s.history == [] || s.history[|s.history| - 1] != question)
                             then LastN(s.history + [question], 100) else if t.busy then LastN(s.history, 100) else s.history)
  {
    hide Trim, LastN;
    TrimOf(lead, question, trail);
    assert Decode("\r") == Enter by { EnterKey(); }
  }

  lemma EnterKey()
    ensures Decode("\r") == Enter
  {
  }

  /** The arrow keys, and the keys for the ends of the line. */
  lemma {:induction false} ArrowKeys(s: State)
    requires Ready(s)
    ensures s.before != "" ==>
              var n := |s.before| - 1;
              Step(s, Key("\U{1B}[D")) == s.(before := s.before[..n], after := [s.before[n]] + s.after)
    ensures s.after != "" ==>
              Step(s, Key("\U{1B}[C")) == s.(before := s.before + [s.after[0]], after := s.after[1..])
    ensures Step(s, Key("\U{1B}[H")) == Step(s, Key("\U{1}")) == s.(before := "", after := s.before + s.after)
    ensures Step(s, Key("\U{1B}[F")) == Step(s, Key("\U{5}")) == s.(before := s.before + s.after, after := "")
    ensures s.history != [] && s.index == None ==>
              var n := |s.history| - 1;
              Step(s, Key("\U{1B}[A")) == s.(before := s.history[n], after := "", index := Some(n))
    ensures s.index == Some(|s.history| - 1) ==>
              Step(s, Key("\U{1B}[B")) == s.(before := "", after := "", index := None)
  {
    hide Edited;
    CodesAre();
    CaretEdits(s);
    RecallEdits(s);
  }

  lemma CodesAre()
    ensures Decode("\U{1B}[A") == GoOlder && Decode("\U{1B}[B") == GoNewer
    ensures Decode("\U{1B}[C") == MoveRight && Decode("\U{1B}[D") == MoveLeft
    ensures Decode("\U{1B}[F") == Decode("\U{5}") == GoEnd && Decode("\U{1B}[H") == Decode("\U{1}") == GoHome
  {
  }

  lemma CaretEdits(s: State)
    ensures forall d: string :: Edited(s, MoveLeft, d) == Left(s) && Edited(s, MoveRight, d) == Right(s)
    ensures forall d: string :: Edited(s, GoHome, d) == s.(before := "", after := s.before + s.after)
    ensures forall d: string :: Edited(s, GoEnd, d) == s.(before := s.before + s.after, after := "")
  {
  }

  lemma RecallEdits(s: State)
    ensures forall d: string :: Edited(s, GoOlder, d) == Older(s) && Edited(s, GoNewer, d) == Newer(s)
  {
  }

  /** Any other escape sequence does nothing. */
  lemma {:induction false} OtherEscapesDoNothing(s: State, data: string)
    requires Ready(s) && data != "" && data[0] == '\U{1B}'
    requires data !in ["\U{1B}[A", "\U{1B}[B", "\U{1B}[C", "\U{1B}[D", "\U{1B}[F", "\U{1B}[H"]
    ensures Step(s, Key(data)) == s
  {
    assert StartsWith(data, ESC);
  }

  /** An answer ends the wait; one with text adds the exchange to the conversation, which keeps its last twelve turns. */
  lemma {:induction false} AnswerEndsTheWait(s: State, reply: Option<string>)
    requires s.busy && !s.finished
    ensures var t := Step(s, Answered(reply));
            && t == s.(busy := false, conversation := t.conversation)
            && t.conversation == match reply
                                 case None => s.conversation
                                 case Some(text) => LastN(s.conversation + [Turn(true, s.asked), Turn(false, text)], 12)
  {
    hide LastN;
  }
}
