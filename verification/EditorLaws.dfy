/** What the line editor keeps over every run of keys and answers, and what one key undoes of another. */
module EditorLaws {
  import opened Wrappers
  import opened JsText
  import opened Sequences
  import opened LineEditor

  // ---------------------------------------------------------------- invariant

  /** Neither controls nor line feeds. */
  predicate Plain(s: string) {
    forall c | c in s :: !Control(c) && c != '\n'
  }

  predicate Entry(s: string) {
    s != "" && |s| <= MAX_INPUT && Plain(s) && !IsSpace(s[0]) && !IsSpace(s[|s| - 1])
  }

  predicate InputSafe(s: State) {
    && |s.before| + |s.after| <= MAX_INPUT && Plain(s.before) && Plain(s.after)
    && (s.index.Some? ==> s.index.value < |s.history|)
    && (s.busy ==> s.before == "" && s.after == "" && s.index.None?)
  }

  predicate HistorySafe(history: seq<string>) {
    && |history| <= MAX_HISTORY
    && (forall h | h in history :: Entry(h))
    && (forall i | 0 <= i < |history| - 1 :: history[i] != history[i + 1])
  }

  /** Questions and replies alternate, a question first. */
  predicate TurnsSafe(turns: seq<Turn>) {
    |turns| <= MAX_TURNS && |turns| % 2 == 0 && forall i | 0 <= i < |turns| :: turns[i].user <==> i % 2 == 0
  }

  predicate Safe(s: State) {
    InputSafe(s) && HistorySafe(s.history) && TurnsSafe(s.conversation)
  }

  /** Cleaned text has no controls, and line feeds only where the text had line ends. */
  lemma {:induction false} CleanedIsPlain(s: string)
    ensures forall c | c in Cleaned(s) :: !Control(c)
    ensures '\n' in Cleaned(s) <==> '\r' in s || '\n' in s
    decreases |s|
  {
    if s == "" {
    } else if |s| >= 2 && s[0] == '\r' && s[1] == '\n' {
      CleanedIsPlain(s[2..]);
    } else {
      CleanedIsPlain(s[1..]);
      assert s == [s[0]] + s[1..];
    }
  }

  lemma TypedIsSafe(s: State, data: string)
    requires InputSafe(s) && !s.busy
    ensures InputSafe(Typed(s, data))
  {
    hide Cleaned, Control;
    var text := data[..LineEnd(data)];
    CleanedIsPlain(text);
    assert '\r' !in text && '\n' !in text;
  }

  lemma RecordedIsSafe(history: seq<string>, question: string)
    requires HistorySafe(history) && Entry(question)
    ensures HistorySafe(LastN(Recorded(history, question), MAX_HISTORY))
  {
    hide Entry;
  }

  lemma SubmittedIsSafe(s: State)
    requires InputSafe(s) && HistorySafe(s.history)
    ensures InputSafe(Submitted(s)) && HistorySafe(Submitted(s).history) && Submitted(s).conversation == s.conversation
  {
    hide HistorySafe, Recorded, LastN, Trim, Entry, Plain;
    var question := Trim(s.before + s.after);
    if question != "" {
      QuestionIsEntry(s);
      RecordedIsSafe(s.history, question);
    }
    assert Plain("") by { NothingIsPlain(); }
  }

  lemma NothingIsPlain()
    ensures Plain("")
  {
  }

  lemma QuestionIsEntry(s: State)
    requires InputSafe(s) && Trim(s.before + s.after) != ""
    ensures Entry(Trim(s.before + s.after))
  {
    hide Trim, Control, IsSpace;
    var question := Trim(s.before + s.after);
    forall c | c in question ensures c in s.before || c in s.after {
    }
  }

  lemma DropWordIsPrefix(s: string)
    ensures DropWord(s) <= s
  {
    BlanksArePrefix(s);
    InkIsPrefix(DropBlanks(s));
  }

  lemma {:induction false} BlanksArePrefix(s: string)
    ensures DropBlanks(s) <= s
  {
    if s != "" { BlanksArePrefix(s[..|s| - 1]); }
  }

  lemma {:induction false} InkIsPrefix(s: string)
    ensures DropInk(s) <= s
  {
    if s != "" { InkIsPrefix(s[..|s| - 1]); }
  }

  /** Keys that neither submit nor type leave history and conversation alone, and the input safe. */
  lemma CaretKeysAreSafe(s: State, command: Command, data: string)
    requires InputSafe(s) && !s.busy && HistorySafe(s.history) && !command.Enter? && !command.Text? && !command.Interrupt?
    ensures var r := Edited(s, command, data);
            InputSafe(r) && r.history == s.history && r.conversation == s.conversation
  {
    hide DropWord, Plain, Entry, Older, Newer, Left, Right;
    match command
    case GoOlder => RecallIsSafe(s);
    case GoNewer => RecallIsSafe(s);
    case EraseWord =>
      DropWordIsPrefix(s.before);
      PlainParts(s.before, DropWord(s.before), s.before[|DropWord(s.before)|..]);
    case Erase =>
      PlainParts(s.before, DropLast(s.before), s.before[|DropLast(s.before)|..]);
    case MoveLeft => MoveIsSafe(s);
    case MoveRight => MoveIsSafe(s);
    case _ =>
      PlainParts("", "", "");
      PlainParts(s.before + s.after, s.before, s.after);
  }

  lemma PlainParts(whole: string, front: string, back: string)
    requires whole == front + back
    ensures Plain(whole) <==> Plain(front) && Plain(back)
    ensures Plain("")
  {
    hide Control;
    assert forall c | c in front :: c in whole;
    assert forall c | c in back :: c in whole;
  }

  lemma MoveIsSafe(s: State)
    requires InputSafe(s) && !s.busy
    ensures InputSafe(Left(s)) && Left(s).history == s.history && Left(s).conversation == s.conversation
    ensures InputSafe(Right(s)) && Right(s).history == s.history && Right(s).conversation == s.conversation
  {
    hide Plain;
    if s.before != "" {
      var last := [s.before[|s.before| - 1]];
      PlainParts(s.before, DropLast(s.before), last);
      PlainParts(last + s.after, last, s.after);
    }
    if s.after != "" {
      var next := [s.after[0]];
      PlainParts(s.after, next, s.after[1..]);
      PlainParts(s.before + next, s.before, next);
    }
  }

  lemma RecallIsSafe(s: State)
    requires InputSafe(s) && !s.busy && HistorySafe(s.history)
    ensures var older, newer := Older(s), Newer(s);
            && InputSafe(older) && older.history == s.history && older.conversation == s.conversation
            && InputSafe(newer) && newer.history == s.history && newer.conversation == s.conversation
  {
    hide Plain;
    PlainParts("", "", "");
    forall i | 0 <= i < |s.history| ensures Entry(s.history[i]) {
      assert s.history[i] in s.history;
    }
  }

  lemma AnsweredIsSafe(s: State, reply: Option<string>)
    requires TurnsSafe(s.conversation)
    ensures TurnsSafe(Step(s, Answered(reply)).conversation)
  {
    hide TurnsSafe, LastN, Edited, Decode;
    if reply.Some? { ExchangeIsSafe(s.conversation, s.asked, reply.value); }
  }

  lemma ExchangeIsSafe(turns: seq<Turn>, question: string, answer: string)
    requires TurnsSafe(turns)
    ensures TurnsSafe(LastN(turns + [Turn(true, question), Turn(false, answer)], MAX_TURNS))
  {
    var longer := turns + [Turn(true, question), Turn(false, answer)];
    assert |longer| % 2 == 0;
    var cut := if |longer| <= MAX_TURNS then 0 else 2;
    assert LastN(longer, MAX_TURNS) == longer[cut..];
    forall i | 0 <= i < |longer| ensures longer[i].user <==> i % 2 == 0 {
    }
  }

  lemma StepKeepsSafe(s: State, e: Event)
    requires Safe(s)
    ensures Safe(Step(s, e))
  {
    hide Submitted, Typed, Entry, Decode, Plain, HistorySafe, Left, Right, Older, Newer, DropWord, TurnsSafe, LastN;
    if e.Answered? { AnsweredIsSafe(s, e.reply); }
    if e.Key? && !s.finished && !s.busy {
      var command := Decode(e.data);
      if command.Enter? {
        SubmittedIsSafe(s);
      } else if command.Text? {
        TypedIsSafe(s, e.data);
        TypedKeepsRest(s, e.data);
        SubmittedIsSafe(Typed(s, e.data));
      } else if !command.Interrupt? {
        CaretKeysAreSafe(s, command, e.data);
      }
    }
  }

  lemma TypedKeepsRest(s: State, data: string)
    ensures Typed(s, data) == s.(before := Typed(s, data).before)
  {
  }

  /**
   After any run: the input is at most 4096 characters, free of controls and line feeds,
   recalled entries included; the history holds at most 100 entries, no two neighbours
   equal; the recall index points into it; and nothing is typed while an answer is due.
   */
  lemma {:induction false} RunKeepsSafe(s: State, events: seq<Event>)
    requires Safe(s)
    ensures Safe(Run(s, events))
    decreases |events|
  {
    hide Step, Safe;
    if events != [] {
      StepKeepsSafe(s, events[0]);
      RunKeepsSafe(Step(s, events[0]), events[1..]);
    }
  }

  // ---------------------------------------------------------------- bounded buffers over runs

  /** The question an event asks, if any. */
  function Asks(s: State, e: Event): Option<string> {
    if !s.busy && Step(s, e).busy then Some(Step(s, e).asked) else None
  }

  function Replies(s: State, e: Event): seq<Turn> {
    if e.Answered? && e.reply.Some? && s.busy && !s.finished then [Turn(true, s.asked), Turn(false, e.reply.value)] else []
  }

  /** Every question asked, without immediate repetitions. */
  function AllQuestions(all: seq<string>, s: State, events: seq<Event>): seq<string>
    decreases |events|
  {
    if events == [] then all
    else
      AllQuestions(match Asks(s, events[0]) case Some(q) => Recorded(all, q) case None => all,
                   Step(s, events[0]), events[1..])
  }

  function AllTurns(all: seq<Turn>, s: State, events: seq<Event>): seq<Turn>
    decreases |events|
  {
    if events == [] then all else AllTurns(all + Replies(s, events[0]), Step(s, events[0]), events[1..])
  }

  lemma RecordedWindow(all: seq<string>, question: string)
    ensures LastN(Recorded(LastN(all, MAX_HISTORY), question), MAX_HISTORY) == LastN(Recorded(all, question), MAX_HISTORY)
  {
    LastNPush(all, question, MAX_HISTORY);
    if all != [] {
      var window := LastN(all, MAX_HISTORY);
      assert window[|window| - 1] == all[|all| - 1];
    }
  }

  lemma TwoTurnsWindow(all: seq<Turn>, a: Turn, b: Turn)
    ensures LastN(LastN(all, MAX_TURNS) + [a, b], MAX_TURNS) == LastN(all + [a, b], MAX_TURNS)
  {
    var n := MAX_TURNS;
    if |all| > n {
      assert LastN(all, n) + [a, b] == (all + [a, b])[|all| - n..];
    }
  }

  lemma StepBuffers(s: State, e: Event)
    ensures Step(s, e).history
            == match Asks(s, e) case Some(q) => LastN(Recorded(s.history, q), MAX_HISTORY) case None => s.history
    ensures Step(s, e).conversation
            == if Replies(s, e) == [] then s.conversation else LastN(s.conversation + Replies(s, e), MAX_TURNS)
  {
    hide LastN, Recorded, Trim, Typed, Decode, DropWord;
    if e.Key? { TypedKeepsRest(s, e.data); }
  }

  /** The bounded history and conversation are the ends of the unbounded ones. */
  lemma {:induction false} BuffersAreWindows(s: State, questions: seq<string>, turns: seq<Turn>, events: seq<Event>)
    requires s.history == LastN(questions, MAX_HISTORY) && s.conversation == LastN(turns, MAX_TURNS)
    ensures Run(s, events).history == LastN(AllQuestions(questions, s, events), MAX_HISTORY)
    ensures Run(s, events).conversation == LastN(AllTurns(turns, s, events), MAX_TURNS)
    decreases |events|
  {
    hide Step, Asks, Recorded, LastN;
    if events != [] {
      var e := events[0];
      StepBuffers(s, e);
      if Asks(s, e).Some? { RecordedWindow(questions, Asks(s, e).value); }
      if Replies(s, e) != [] {
        TwoTurnsWindow(turns, Replies(s, e)[0], Replies(s, e)[1]);
      } else {
        assert turns + Replies(s, e) == turns;
      }
      BuffersAreWindows(Step(s, e), match Asks(s, e) case Some(q) => Recorded(questions, q) case None => questions,
                        turns + Replies(s, e), events[1..]);
    }
  }

  // ---------------------------------------------------------------- typing and pasting

  function Repeat(e: Event, n: nat): seq<Event> {
    if n == 0 then [] else [e] + Repeat(e, n - 1)
  }

  /** Characters that a key press types rather than acts on. */
  predicate Ordinary(s: string) {
    forall c | c in s :: c == '\t' || (!Control(c) && c != '\n')
  }

  function Keys(s: string): seq<Event> {
    if s == "" then [] else [Key([s[0]])] + Keys(s[1..])
  }

  lemma OrdinaryIsText(data: string)
    requires Ordinary(data) && data != ""
    ensures Decode(data) == Text && LineEnd(data) == |data|
  {
    hide Decode;
    assert data[0] in data;
    NoCommand(data);
    assert forall i | 0 <= i < |data| :: data[i] in data;
  }

  /** Every command starts with a control character other than the tab. */
  lemma NoCommand(data: string)
    requires data != "" && (data[0] == '\t' || (data[0] as int >= 0x20 && data[0] as int != 0x7F))
    ensures Decode(data) == Text
  {
    assert CTRL_A[0] == '\U{1}' && CTRL_C[0] == '\U{3}' && CTRL_D[0] == '\U{4}' && CTRL_E[0] == '\U{5}';
    assert CTRL_H[0] == '\U{8}' && CTRL_U[0] == '\U{15}' && CTRL_W[0] == '\U{17}' && DEL[0] == '\U{7F}';
    assert ESC[0] == UP[0] == DOWN[0] == LEFT[0] == RIGHT[0] == HOME[0] == END[0] == '\U{1B}';
    assert "\r"[0] == '\r' && "\n"[0] == '\n';
    assert !StartsWith(data, ESC) by { assert |ESC| == 1 && data[..1][0] == data[0]; }
  }

  lemma CleanedSplit(c: char, s: string)
    requires c != '\r'
    ensures Cleaned([c] + s) == Shown(c) + Cleaned(s)
  {
    assert ([c] + s)[1..] == s;
  }

  lemma InsertedTwice(s: State, x: string, y: string)
    ensures Inserted(Inserted(s, x), y) == Inserted(s, x + y)
  {
    var used := |s.before| + |s.after|;
    var room := if used <= MAX_INPUT then MAX_INPUT - used else 0;
    var a := First(x, room);
    var b := First(y, room - |a|);
    assert First(x + y, room) == a + b;
    assert (s.before + a) + b == s.before + (a + b);
  }

  /** Cutting the text to 4096 before it is inserted changes nothing: there is never more room. */
  lemma InsertedCut(s: State, x: string)
    ensures Inserted(s, First(x, MAX_INPUT)) == Inserted(s, x)
  {
  }

  lemma OrdinaryStep(s: State, data: string)
    requires Ordinary(data) && data != "" && !s.busy && !s.finished
    ensures Step(s, Key(data)) == Inserted(s, Cleaned(data))
  {
    hide Cleaned, Inserted, Decode;
    OrdinaryIsText(data);
    assert data[..|data|] == data;
    InsertedCut(s, Cleaned(data));
  }

  /** However ordinary text is divided into chunks, down to single keys, it edits the same. */
  lemma {:induction false} PasteIsTyping(s: State, text: string)
    requires Ordinary(text) && text != "" && !s.busy && !s.finished
    ensures Run(s, Keys(text)) == Step(s, Key(text))
    decreases |text|
  {
    hide Step, Inserted, Control, Shown, Cleaned;
    var c, rest := [text[0]], text[1..];
    assert text[0] in text && text == c + rest;
    assert forall x | x in rest :: x in text;
    assert Keys(text)[0] == Key(c) && Keys(text)[1..] == Keys(rest);
    OrdinaryStep(s, text);
    OrdinaryStep(s, c);
    OneCharacter(text[0]);
    CleanedSplit(text[0], rest);
    InsertedTwice(s, Shown(text[0]), Cleaned(rest));
    var next := Step(s, Key(c));
    InsertedFlags(s, Cleaned(c));
    if rest == "" {
      assert Cleaned(rest) == "" by { CleanedNothing(); }
      assert Shown(text[0]) + "" == Shown(text[0]);
      assert Run(next, []) == next;
    } else {
      PasteIsTyping(next, rest);
      OrdinaryStep(next, rest);
    }
  }

  lemma CleanedNothing()
    ensures Cleaned("") == ""
  {
  }

  lemma OneCharacter(c: char)
    requires Ordinary([c])
    ensures c != '\r' && Cleaned([c]) == Shown(c)
  {
    assert c in [c];
    assert [c] == [c] + "";
    CleanedSplit(c, "");
  }

  lemma InsertedFlags(s: State, x: string)
    ensures Inserted(s, x).busy == s.busy && Inserted(s, x).finished == s.finished
  {
  }

  /** A chunk with a line end acts as the text before it and then the Enter key; what follows is lost. */
  lemma {:induction false} NewlineEndsThePaste(s: State, text: string, end: char, rest: string)
    requires Ordinary(text) && text != "" && (end == '\r' || end == '\n') && !s.busy && !s.finished
    ensures Step(s, Key(text + [end] + rest)) == Run(s, Keys(text) + [Key("\r")])
  {
    hide Inserted, Submitted, Cleaned;
    var data := text + [end] + rest;
    PasteIsTyping(s, text);
    RunAppend(s, Keys(text), [Key("\r")]);
    OrdinaryStep(s, text);
    InsertedFlags(s, Cleaned(text));
    PrefixIsText(text, end, rest);
    assert data[..|text|] == text;
    InsertedCut(s, Cleaned(text));
    assert [Key("\r")][1..] == [];
  }

  lemma PrefixIsText(text: string, end: char, rest: string)
    requires Ordinary(text) && text != "" && (end == '\r' || end == '\n')
    ensures Decode(text + [end] + rest) == Text && LineEnd(text + [end] + rest) == |text|
  {
    var data := text + [end] + rest;
    hide Decode;
    assert data[0] == text[0] && text[0] in text && data[|text|] == end;
    NoCommand(data);
    assert forall i | 0 <= i < |text| :: data[i] in text;
  }

  /** Erasing as many characters as were inserted restores the editor exactly. */
  lemma {:induction false} ErasingUndoesTyping(s: State, data: string)
    requires Ordinary(data) && data != "" && !s.busy && !s.finished
    ensures var typed := Step(s, Key(data));
            |s.before| <= |typed.before| && Run(typed, Repeat(Key(DEL), |typed.before| - |s.before|)) == s
  {
    hide Step;
    OrdinaryStep(s, data);
    var typed := Step(s, Key(data));
    EraseMany(typed, |typed.before| - |s.before|);
    assert typed.before[..|s.before|] == s.before;
  }

  lemma {:induction false} EraseMany(s: State, n: nat)
    requires n <= |s.before| && !s.busy && !s.finished
    ensures Run(s, Repeat(Key(DEL), n)) == s.(before := s.before[..|s.before| - n])
    decreases n
  {
    if n == 0 {
      assert s.before[..|s.before|] == s.before;
    } else {
      EraseOnce(s);
      var next := s.(before := DropLast(s.before));
      EraseMany(next, n - 1);
      hide Step;
      assert next.before[..|next.before| - (n - 1)] == s.before[..|s.before| - n];
      assert Repeat(Key(DEL), n)[0] == Key(DEL) && Repeat(Key(DEL), n)[1..] == Repeat(Key(DEL), n - 1);
    }
  }

  lemma EraseOnce(s: State)
    requires !s.busy && !s.finished
    ensures Step(s, Key(DEL)) == s.(before := DropLast(s.before))
  {
  }

  // ---------------------------------------------------------------- moving the caret

  predicate CaretKey(e: Event) {
    e in [Key(LEFT), Key(RIGHT), Key(CTRL_A), Key(HOME), Key(CTRL_E), Key(END)]
  }

  /** Where a caret key takes the caret in a line of the given length. */
  function Moved(column: nat, length: nat, e: Event): nat {
    if e == Key(LEFT) then (if column > 0 then column - 1 else 0)
    else if e == Key(RIGHT) then (if column < length then column + 1 else column)
    else if e == Key(CTRL_A) || e == Key(HOME) then 0
    else length
  }

  function MovedBy(column: nat, length: nat, events: seq<Event>): nat
    decreases |events|
  {
    if events == [] then column else MovedBy(Moved(column, length, events[0]), length, events[1..])
  }

  /** The same line with the caret elsewhere. */
  function At(s: State, column: nat): State
    requires column <= |s.before + s.after|
  {
    s.(before := (s.before + s.after)[..column], after := (s.before + s.after)[column..])
  }

  lemma CaretCommands()
    ensures Decode(LEFT) == MoveLeft && Decode(RIGHT) == MoveRight
    ensures Decode(CTRL_A) == Decode(HOME) == GoHome && Decode(CTRL_E) == Decode(END) == GoEnd
  {
    assert CTRL_A[0] == '\U{1}' && CTRL_C[0] == '\U{3}' && CTRL_E[0] == '\U{5}' && CTRL_H[0] == '\U{8}' && DEL[0] == '\U{7F}';
    assert ESC[0] == UP[0] == DOWN[0] == LEFT[0] == RIGHT[0] == HOME[0] == END[0] == '\U{1B}' && "\r"[0] == '\r' && "\n"[0] == '\n';
    assert UP[2] == 'A' && DOWN[2] == 'B' && RIGHT[2] == 'C' && LEFT[2] == 'D' && END[2] == 'F' && HOME[2] == 'H';
  }

  lemma CaretStep(s: State, e: Event)
    requires CaretKey(e) && !s.busy && !s.finished
    ensures var to := Moved(|s.before|, |s.before + s.after|, e);
            to <= |s.before + s.after| && Step(s, e) == At(s, to)
  {
    hide Decode;
    CaretCommands();
  }

  /** Any run of caret keys leaves the line as it is and takes the caret where the keys say. */
  lemma {:induction false} CaretKeysOnlyMove(s: State, events: seq<Event>)
    requires !s.busy && !s.finished && forall e | e in events :: CaretKey(e)
    ensures var to := MovedBy(|s.before|, |s.before + s.after|, events);
            to <= |s.before + s.after| && Run(s, events) == At(s, to)
    decreases |events|
  {
    hide Step, CaretKey, Moved;
    if events == [] {
      assert At(s, |s.before|) == s;
    } else {
      assert events[0] in events && forall e | e in events[1..] :: e in events;
      CaretStep(s, events[0]);
      var next := Step(s, events[0]);
      assert next.before + next.after == s.before + s.after;
      CaretKeysOnlyMove(next, events[1..]);
    }
  }

  // ---------------------------------------------------------------- words

  predicate AllBlank(s: string) { forall c | c in s :: c == ' ' }

  predicate NoBlank(s: string) { forall c | c in s :: c != ' ' }

  /** `word` is the last word of `s` and `blanks` all that follows it. */
  predicate LastWord(s: string, kept: string, word: string, blanks: string) {
    && s == kept + word + blanks
    && AllBlank(blanks) && NoBlank(word)
    && (kept == "" || (kept[|kept| - 1] == ' ' && word != ""))
  }

  lemma {:induction false} DropBlanksOf(s: string, blanks: string)
    requires AllBlank(blanks) && (s == "" || s[|s| - 1] != ' ')
    ensures DropBlanks(s + blanks) == s
    decreases |blanks|
  {
    if blanks == "" {
      assert s + blanks == s;
    } else {
      var fewer := blanks[..|blanks| - 1];
      assert blanks[|blanks| - 1] in blanks && forall c | c in fewer :: c in blanks;
      assert (s + blanks)[..|s + blanks| - 1] == s + fewer;
      DropBlanksOf(s, fewer);
    }
  }

  lemma {:induction false} DropInkOf(s: string, word: string)
    requires NoBlank(word) && (s == "" || s[|s| - 1] == ' ')
    ensures DropInk(s + word) == s
    decreases |word|
  {
    if word == "" {
      assert s + word == s;
    } else {
      var less := word[..|word| - 1];
      assert word[|word| - 1] in word && forall c | c in less :: c in word;
      assert (s + word)[..|s + word| - 1] == s + less;
      DropInkOf(s, less);
    }
  }

  lemma {:induction false} BlanksDropped(s: string) returns (blanks: string)
    ensures s == DropBlanks(s) + blanks && AllBlank(blanks)
    ensures DropBlanks(s) == "" || DropBlanks(s)[|DropBlanks(s)| - 1] != ' '
  {
    if s != "" && s[|s| - 1] == ' ' {
      var fewer := BlanksDropped(s[..|s| - 1]);
      blanks := fewer + " ";
      assert s == (DropBlanks(s) + fewer) + " ";
    } else {
      blanks := "";
    }
  }

  lemma {:induction false} InkDropped(s: string) returns (word: string)
    ensures s == DropInk(s) + word && NoBlank(word)
    ensures DropInk(s) == "" || DropInk(s)[|DropInk(s)| - 1] == ' '
  {
    if s != "" && s[|s| - 1] != ' ' {
      var less := InkDropped(s[..|s| - 1]);
      word := less + [s[|s| - 1]];
      assert s == (DropInk(s) + less) + [s[|s| - 1]];
    } else {
      word := "";
    }
  }

  /** Ctrl-W keeps exactly what comes before the last word, and no other reading of the text has a last word. */
  lemma {:induction false} WordErasedIff(s: string, kept: string)
    ensures kept == DropWord(s) <==> exists word, blanks :: LastWord(s, kept, word, blanks)
  {
    if kept == DropWord(s) {
      var blanks := BlanksDropped(s);
      var word := InkDropped(DropBlanks(s));
      assert LastWord(s, kept, word, blanks);
    }
    if word, blanks :| LastWord(s, kept, word, blanks) {
      var text := kept + word;
      assert text == "" || text[|text| - 1] != ' ' by {
        if word != "" { assert word[|word| - 1] in word; }
      }
      DropBlanksOf(text, blanks);
      DropInkOf(kept, word);
    }
  }

  // ---------------------------------------------------------------- recalling

  lemma OlderStep(s: State)
    requires !s.busy && !s.finished
    ensures Step(s, Key(UP)) == Older(s)
  {
    assert UP[2] == 'A' && LEFT[2] == 'D' && RIGHT[2] == 'C';
  }

  lemma NewerStep(s: State)
    requires !s.busy && !s.finished
    ensures Step(s, Key(DOWN)) == Newer(s)
  {
    assert DOWN[2] == 'B' && UP[2] == 'A' && LEFT[2] == 'D' && RIGHT[2] == 'C';
  }

  /** Going up k times from the prompt shows the k-th latest entry; the oldest one stays when there is no older. */
  lemma {:induction false} UpShows(s: State, k: nat)
    requires !s.busy && !s.finished && s.index.None? && 1 <= k && s.history != []
    ensures Run(s, Repeat(Key(UP), k)) == Recalled(s, if k <= |s.history| then |s.history| - k else 0)
    decreases k
  {
    hide Step;
    OlderStep(s);
    var first := Recalled(s, |s.history| - 1);
    UpFrom(first, |s.history| - 1, k - 1);
    assert Repeat(Key(UP), k)[0] == Key(UP) && Repeat(Key(UP), k)[1..] == Repeat(Key(UP), k - 1);
    RecalledTwice(s, |s.history| - 1, if k <= |s.history| then |s.history| - k else 0);
  }

  lemma RecalledTwice(s: State, i: nat, j: nat)
    requires i < |s.history| && j < |s.history|
    ensures Recalled(Recalled(s, i), j) == Recalled(s, j)
  {
  }

  lemma {:induction false} UpFrom(s: State, i: nat, n: nat)
    requires !s.busy && !s.finished && s.index == Some(i) && i < |s.history| && s == Recalled(s, i)
    ensures Run(s, Repeat(Key(UP), n)) == Recalled(s, if n <= i then i - n else 0)
    decreases n
  {
    hide Step;
    if n > 0 {
      OlderStep(s);
      var next := Recalled(s, if i > 0 then i - 1 else 0);
      UpFrom(next, if i > 0 then i - 1 else 0, n - 1);
      assert Repeat(Key(UP), n)[0] == Key(UP) && Repeat(Key(UP), n)[1..] == Repeat(Key(UP), n - 1);
    }
  }

  /** Going down from entry i: n steps show entry i + n, and past the latest entry the prompt is empty again. */
  lemma {:induction false} DownFrom(s: State, i: nat, n: nat)
    requires !s.busy && !s.finished && s.index == Some(i) && i < |s.history| && s == Recalled(s, i)
    requires i + n <= |s.history|
    ensures Run(s, Repeat(Key(DOWN), n))
            == if i + n < |s.history| then Recalled(s, i + n) else s.(before := "", after := "", index := None)
    decreases n
  {
    hide Step;
    if n > 0 {
      NewerStep(s);
      assert Repeat(Key(DOWN), n)[0] == Key(DOWN) && Repeat(Key(DOWN), n)[1..] == Repeat(Key(DOWN), n - 1);
      if i + 1 < |s.history| {
        var next := Recalled(s, i + 1);
        DownFrom(next, i + 1, n - 1);
        RecalledTwice(s, i + 1, if i + n < |s.history| then i + n else i + 1);
      }
    }
  }

  /** As many steps down as up lead back to an empty prompt: recalling costs the draft, nothing else. */
  lemma {:induction false} RecallReturns(s: State, k: nat)
    requires !s.busy && !s.finished && s.index.None? && 1 <= k <= |s.history|
    ensures Run(s, Repeat(Key(UP), k) + Repeat(Key(DOWN), k)) == s.(before := "", after := "")
  {
    hide Step, Run;
    RunAppend(s, Repeat(Key(UP), k), Repeat(Key(DOWN), k));
    UpShows(s, k);
    DownFrom(Recalled(s, |s.history| - k), |s.history| - k, k);
  }
}
