/** The other raw-mode editor, of the plain prompt, written separately and against the same line editor. */
module ReplEditing {
  import opened Wrappers
  import opened JsText
  import opened Sequences
  import opened LineEditor

  class ReplEditor {
    var buf: string
    var cur: nat
    var history: seq<string>
    var histIdx: Option<nat>
    var chatHistory: seq<Turn>
    var asked: string
    var busy: bool
    var finished: bool

    ghost predicate Valid()
      reads this
    {
      cur <= |buf| && (histIdx.Some? ==> histIdx.value < |history|)
    }

    ghost function Abstract(): State
      reads this
      requires Valid()
    {
      State(buf[..cur], buf[cur..], history, histIdx, chatHistory, asked, busy, finished)
    }

    constructor ()
      ensures Valid() && Abstract() == Fresh
    {
      buf, cur, history, histIdx := "", 0, [], None;
      chatHistory, asked, busy, finished := [], "", false, false;
    }

    method Remember(question: string)
      modifies this`history
      ensures history == LastN(Recorded(old(history), question), MAX_HISTORY)
    {
      if history == [] || history[|history| - 1] != question {
        history := history + [question];
      }
      ghost var all := history;
      while |history| > MAX_HISTORY
        invariant LastN(history, MAX_HISTORY) == LastN(all, MAX_HISTORY)
      {
        history := history[1..];
      }
    }

    method Submit()
      requires Valid()
      modifies this
      ensures Valid() && Abstract() == Submitted(old(Abstract()))
    {
      hide Recorded, Trim, LastN;
      assert buf[..cur] + buf[cur..] == buf;
      var q := Trim(buf);
      buf := "";
      cur := 0;
      histIdx := None;
      if q == "" { return; }
      if q == "/exit" || q == "/quit" || q == "/q" {
        finished := true;
        return;
      }
      Remember(q);
      asked := q;
      busy := true;
    }

    method Recall(index: nat)
      requires Valid() && index < |history|
      modifies this`buf, this`cur, this`histIdx
      ensures Valid() && Abstract() == Recalled(old(Abstract()), index)
    {
      histIdx := Some(index);
      buf := history[index];
      cur := |buf|;
    }

    method DeleteWord()
      requires Valid()
      modifies this`buf, this`cur
      ensures Valid()
      ensures Abstract() == var s := old(Abstract()); s.(before := DropWord(s.before))
    {
      var index := cur;
      while index > 0 && buf[index - 1] == ' '
        invariant 0 <= index <= cur
        invariant DropBlanks(buf[..index]) == DropBlanks(buf[..cur])
      {
        assert buf[..index][..index - 1] == buf[..index - 1];
        index := index - 1;
      }
      while index > 0 && buf[index - 1] != ' '
        invariant 0 <= index <= cur
        invariant DropInk(buf[..index]) == DropWord(buf[..cur])
      {
        assert buf[..index][..index - 1] == buf[..index - 1];
        index := index - 1;
      }
      buf := buf[..index] + buf[cur..];
      cur := index;
    }

    method Insert(printable: string)
      requires Valid()
      modifies this`buf, this`cur
      ensures Valid() && Abstract() == Inserted(old(Abstract()), printable)
    {
      var available := if |buf| <= MAX_INPUT then MAX_INPUT - |buf| else 0;
      var inserted := First(printable, available);
      buf := buf[..cur] + inserted + buf[cur..];
      cur := cur + |inserted|;
    }

    method Backspace()
      requires Valid()
      modifies this`buf, this`cur
      ensures Valid()
      ensures Abstract() == var s := old(Abstract()); s.(before := DropLast(s.before))
    {
      if cur > 0 {
        buf := buf[..cur - 1] + buf[cur..];
        cur := cur - 1;
      }
    }

    method CursorLeft()
      requires Valid()
      modifies this`cur
      ensures Valid() && Abstract() == Left(old(Abstract()))
    {
      if cur > 0 { cur := cur - 1; }
    }

    method CursorRight()
      requires Valid()
      modifies this`cur
      ensures Valid() && Abstract() == Right(old(Abstract()))
    {
      if cur < |buf| { cur := cur + 1; }
    }

    method RecallOlder()
      requires Valid()
      modifies this`buf, this`cur, this`histIdx
      ensures Valid() && Abstract() == Older(old(Abstract()))
    {
      if |history| == 0 { return; }
      Recall(if histIdx.None? then |history| - 1 else if histIdx.value > 0 then histIdx.value - 1 else 0);
    }

    method RecallNewer()
      requires Valid()
      modifies this`buf, this`cur, this`histIdx
      ensures Valid() && Abstract() == Newer(old(Abstract()))
    {
      if histIdx.None? { return; }
      var index := histIdx.value + 1;
      if index >= |history| {
        histIdx := None;
        buf := "";
        cur := 0;
      } else {
        Recall(index);
      }
    }

    method Type(data: string)
      requires Valid()
      modifies this
      ensures Valid() && Abstract() == Edited(old(Abstract()), Text, data)
    {
      hide Submitted, SafeDisplayText, Trim;
      var newline := LineEnd(data);
      var printable := SafeDisplayText(data[..newline], MAX_INPUT);
      if printable != "" {
        Insert(printable);
      } else {
        assert old(Abstract()).before + "" == old(Abstract()).before;
      }
      assert Abstract() == Typed(old(Abstract()), data);
      if newline < |data| { Submit(); }
    }

    method OnData(data: string)
      requires Valid()
      modifies this
      ensures Valid() && Abstract() == Step(old(Abstract()), Key(data))
    {
      hide Submitted, Typed, DropWord, DropLast, Left, Right, Older, Newer, StartsWith, LineEnd;
      if finished { return; }
      if data == CTRL_C {
        finished := true;
        return;
      }
      if busy { return; }
      assert buf[..cur] + buf[cur..] == buf;
      if data == "\r" || data == "\n" {
        Submit();
      } else if data == DEL || data == CTRL_H {
        Backspace();
      } else if data == LEFT {
        CursorLeft();
      } else if data == RIGHT {
        CursorRight();
      } else if data == UP {
        RecallOlder();
      } else if data == DOWN {
        RecallNewer();
      } else if data == CTRL_A || data == HOME {
        cur := 0;
      } else if data == CTRL_E || data == END {
        cur := |buf|;
      } else if data == CTRL_W {
        DeleteWord();
      } else if data == CTRL_U {
        buf := "";
        cur := 0;
      } else if data == CTRL_D {
        if |buf| == 0 { finished := true; }
      } else if !StartsWith(data, ESC) {
        Type(data);
      }
    }

    method RecordTurn(question: string, answer: string)
      modifies this`chatHistory
      ensures chatHistory == LastN(old(chatHistory) + [Turn(true, question), Turn(false, answer)], MAX_TURNS)
    {
      chatHistory := chatHistory + [Turn(true, question), Turn(false, answer)];
      while |chatHistory| > MAX_TURNS
        invariant LastN(chatHistory, MAX_TURNS)
                  == LastN(old(chatHistory) + [Turn(true, question), Turn(false, answer)], MAX_TURNS)
      {
        chatHistory := chatHistory[1..];
      }
    }

    method OnAnswer(reply: Option<string>)
      requires Valid()
      modifies this`chatHistory, this`busy
      ensures Valid() && Abstract() == Step(old(Abstract()), Answered(reply))
    {
      if finished || !busy { return; }
      if reply.Some? { RecordTurn(asked, reply.value); }
      busy := false;
    }
  }
}
