/** The cockpit's raw-mode editor, on the fields of the cockpit state, against the line editor. */
module CockpitEditing {
  import opened Wrappers
  import opened JsText
  import opened Sequences
  import opened LineEditor

  class CockpitEditor {
    var input: string
    var cursor: nat
    var history: seq<string>
    var historyIndex: Option<nat>
    var conversation: seq<Turn>
    var lastQ: string
    var busy: bool
    var finished: bool

    ghost predicate Valid()
      reads this
    {
      cursor <= |input| && (historyIndex.Some? ==> historyIndex.value < |history|)
    }

    ghost function Abstract(): State
      reads this
      requires Valid()
    {
      State(input[..cursor], input[cursor..], history, historyIndex, conversation, lastQ, busy, finished)
    }

    constructor ()
      ensures Valid() && Abstract() == Fresh
    {
      input, cursor, history, historyIndex := "", 0, [], None;
      conversation, lastQ, busy, finished := [], "", false, false;
    }

    method Remember(question: string)
      modifies this`history
      ensures history == LastN(Recorded(old(history), question), MAX_HISTORY)
    {
      if history == [] || history[|history| - 1] != question {
        history := history + [question];
      }
      ghost var all := history;
      while |history| > MAX_HISTORY
        invariant LastN(history, MAX_HISTORY) == LastN(all, MAX_HISTORY)
      {
        history := history[1..];
      }
    }

    method Submit()
      requires Valid()
      modifies this
      ensures Valid() && Abstract() == Submitted(old(Abstract()))
    {
      hide Recorded, Trim, LastN;
      assert input[..cursor] + input[cursor..] == input;
      var question := Trim(input);
      input := "";
      cursor := 0;
      historyIndex := None;
      if question == "" { return; }
      if question == "/exit" || question == "/quit" || question == "/q" {
        finished := true;
        return;
      }
      Remember(question);
      lastQ := question;
      busy := true;
    }

    method Recall(index: nat)
      requires Valid() && index < |history|
      modifies this`input, this`cursor, this`historyIndex
      ensures Valid() && Abstract() == Recalled(old(Abstract()), index)
    {
      historyIndex := Some(index);
      input := history[index];
      cursor := |input|;
    }

    method DeleteWord()
      requires Valid()
      modifies this`input, this`cursor
      ensures Valid()
      ensures Abstract() == var s := old(Abstract()); s.(before := DropWord(s.before))
    {
      var index := cursor;
      while index > 0 && input[index - 1] == ' '
        invariant 0 <= index <= cursor
        invariant DropBlanks(input[..index]) == DropBlanks(input[..cursor])
      {
        assert input[..index][..index - 1] == input[..index - 1];
        index := index - 1;
      }
      while index > 0 && input[index - 1] != ' '
        invariant 0 <= index <= cursor
        invariant DropInk(input[..index]) == DropWord(input[..cursor])
      {
        assert input[..index][..index - 1] == input[..index - 1];
        index := index - 1;
      }
      input := input[..index] + input[cursor..];
      cursor := index;
    }

    method Insert(printable: string)
      requires Valid()
      modifies this`input, this`cursor
      ensures Valid() && Abstract() == Inserted(old(Abstract()), printable)
    {
      var available := if |input| <= MAX_INPUT then MAX_INPUT - |input| else 0;
      var inserted := First(printable, available);
      input := input[..cursor] + inserted + input[cursor..];
      cursor := cursor + |inserted|;
    }

    method Backspace()
      requires Valid()
      modifies this`input, this`cursor
      ensures Valid()
      ensures Abstract() == var s := old(Abstract()); s.(before := DropLast(s.before))
    {
      if cursor > 0 {
        input := input[..cursor - 1] + input[cursor..];
        cursor := cursor - 1;
      }
    }

    method CursorLeft()
      requires Valid()
      modifies this`cursor
      ensures Valid() && Abstract() == Left(old(Abstract()))
    {
      if cursor > 0 { cursor := cursor - 1; }
    }

    method CursorRight()
      requires Valid()
      modifies this`cursor
      ensures Valid() && Abstract() == Right(old(Abstract()))
    {
      if cursor < |input| { cursor := cursor + 1; }
    }

    method RecallOlder()
      requires Valid()
      modifies this`input, this`cursor, this`historyIndex
      ensures Valid() && Abstract() == Older(old(Abstract()))
    {
      if |history| == 0 { return; }
      Recall(if historyIndex.None? then |history| - 1 else if historyIndex.value > 0 then historyIndex.value - 1 else 0);
    }

    method RecallNewer()
      requires Valid()
      modifies this`input, this`cursor, this`historyIndex
      ensures Valid() && Abstract() == Newer(old(Abstract()))
    {
      if historyIndex.None? { return; }
      var index := historyIndex.value + 1;
      if index >= |history| {
        historyIndex := None;
        input := "";
        cursor := 0;
      } else {
        Recall(index);
      }
    }

    method Type(data: string)
      requires Valid()
      modifies this
      ensures Valid() && Abstract() == Edited(old(Abstract()), Text, data)
    {
      hide Submitted, SafeDisplayText, Trim;
      var newline := LineEnd(data);
      var printable := SafeDisplayText(data[..newline], MAX_INPUT);
      if printable != "" {
        Insert(printable);
      } else {
        assert old(Abstract()).before + "" == old(Abstract()).before;
      }
      assert Abstract() == Typed(old(Abstract()), data);
      if newline < |data| { Submit(); }
    }

    method OnData(data: string)
      requires Valid()
      modifies this
      ensures Valid() && Abstract() == Step(old(Abstract()), Key(data))
    {
      hide Submitted, Typed, DropWord, DropLast, Left, Right, Older, Newer, StartsWith, LineEnd;
      if finished { return; }
      if data == CTRL_C {
        finished := true;
        return;
      }
      if busy { return; }
      assert input[..cursor] + input[cursor..] == input;
      if data == "\r" || data == "\n" {
        Submit();
      } else if data == DEL || data == CTRL_H {
        Backspace();
      } else if data == LEFT {
        CursorLeft();
      } else if data == RIGHT {
        CursorRight();
      } else if data == UP {
        RecallOlder();
      } else if data == DOWN {
        RecallNewer();
      } else if data == CTRL_A || data == HOME {
        cursor := 0;
      } else if data == CTRL_E || data == END {
        cursor := |input|;
      } else if data == CTRL_W {
        DeleteWord();
      } else if data == CTRL_U {
        input := "";
        cursor := 0;
      } else if data == CTRL_D {
        if |input| == 0 { finished := true; }
      } else if !StartsWith(data, ESC) {
        Type(data);
      }
    }

    method RecordTurn(question: string, answer: string)
      modifies this`conversation
      ensures conversation == LastN(old(conversation) + [Turn(true, question), Turn(false, answer)], MAX_TURNS)
    {
      conversation := conversation + [Turn(true, question), Turn(false, answer)];
      while |conversation| > MAX_TURNS
        invariant LastN(conversation, MAX_TURNS)
                  == LastN(old(conversation) + [Turn(true, question), Turn(false, answer)], MAX_TURNS)
      {
        conversation := conversation[1..];
      }
    }

    method OnAnswer(reply: Option<string>)
      requires Valid()
      modifies this`conversation, this`busy
      ensures Valid() && Abstract() == Step(old(Abstract()), Answered(reply))
    {
      if finished || !busy { return; }
      if reply.Some? { RecordTurn(lastQ, reply.value); }
      busy := false;
    }
  }
}
