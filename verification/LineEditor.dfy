/**
 The prompt's line editor: the text before and after the caret, a local history that can be
 recalled, and the question being answered. Keys arrive as the terminal delivers them, a
 string of one or more characters at a time.
 */
module LineEditor {
  import opened Wrappers
  import opened JsText
  import opened Sequences

  const MAX_INPUT: nat := 4096
  const MAX_HISTORY: nat := 100
  const MAX_TURNS: nat := 12

  const CTRL_A := "\U{1}"
  const CTRL_C := "\U{3}"
  const CTRL_D := "\U{4}"
  const CTRL_E := "\U{5}"
  const CTRL_H := "\U{8}"
  const CTRL_U := "\U{15}"
  const CTRL_W := "\U{17}"
  const ESC := "\U{1B}"
  const DEL := "\U{7F}"
  const UP := "\U{1B}[A"
  const DOWN := "\U{1B}[B"
  const RIGHT := "\U{1B}[C"
  const LEFT := "\U{1B}[D"
  const END := "\U{1B}[F"
  const HOME := "\U{1B}[H"

  datatype Turn = Turn(user: bool, content: string)

  /** `asked` is the question being answered while `busy`. */
  datatype State = State(
    before: string, after: string, history: seq<string>, index: Option<nat>,
    conversation: seq<Turn>, asked: string, busy: bool, finished: bool)

  /** An answer that fails, or that the cockpit gives by itself, has no reply. */
  datatype Event = Key(data: string) | Answered(reply: Option<string>)

  const Fresh := State("", "", [], None, [], "", false, false)

  // ---------------------------------------------------------------- display text

  /** Controls that could move the cursor or reverse the text; a line feed is not one of them. */
  predicate Control(c: char) {
    var p := c as int;
    p <= 9 || 0xB <= p <= 0x1F || 0x7F <= p <= 0x9F || 0x202A <= p <= 0x202E || 0x2066 <= p <= 0x2069
  }

  function Shown(c: char): string {
    if c == '\t' then "  " else if Control(c) then "" else [c]
  }

  /** Line ends become line feeds, tabs two spaces, and controls disappear. */
  function Cleaned(s: string): string {
    if s == "" then ""
    else if |s| >= 2 && s[0] == '\r' && s[1] == '\n' then "\n" + Cleaned(s[2..])
    else if s[0] == '\r' then "\n" + Cleaned(s[1..])
    else Shown(s[0]) + Cleaned(s[1..])
  }

  function First(s: string, n: nat): (r: string)
    ensures r <= s && |r| <= n && (|s| <= n ==> r == s)
  {
    if |s| <= n then s else s[..n]
  }

  function SafeDisplayText(s: string, maximum: nat): string {
    First(Cleaned(s), maximum)
  }

  /** `search(/[\r\n]/)`, or the length if there is none. */
  function LineEnd(s: string): (n: nat)
    ensures n <= |s|
    ensures n < |s| ==> s[n] == '\r' || s[n] == '\n'
    ensures forall i | 0 <= i < n :: s[i] != '\r' && s[i] != '\n'
  {
    if s == "" || s[0] == '\r' || s[0] == '\n' then 0 else 1 + LineEnd(s[1..])
  }

  // ---------------------------------------------------------------- editing

  /** What a chunk of input asks for. */
  datatype Command =
    | Interrupt | Enter | Erase | MoveLeft | MoveRight | GoOlder | GoNewer
    | GoHome | GoEnd | EraseWord | EraseLine | EndOfInput | Unknown | Text

  function Decode(data: string): Command {
    if data == CTRL_C then Interrupt
    else if data == "\r" || data == "\n" then Enter
    else if data == DEL || data == CTRL_H then Erase
    else if data == LEFT then MoveLeft
    else if data == RIGHT then MoveRight
    else if data == UP then GoOlder
    else if data == DOWN then GoNewer
    else if data == CTRL_A || data == HOME then GoHome
    else if data == CTRL_E || data == END then GoEnd
    else if data == CTRL_W then EraseWord
    else if data == CTRL_U then EraseLine
    else if data == CTRL_D then EndOfInput
    else if StartsWith(data, ESC) then Unknown
    else Text
  }

  function DropLast(s: string): string {
    if s == "" then "" else s[..|s| - 1]
  }

  function DropBlanks(s: string): string {
    if s != "" && s[|s| - 1] == ' ' then DropBlanks(s[..|s| - 1]) else s
  }

  function DropInk(s: string): string {
    if s != "" && s[|s| - 1] != ' ' then DropInk(s[..|s| - 1]) else s
  }

  /** The text without its last word and the blanks after that word. */
  function DropWord(s: string): string {
    DropInk(DropBlanks(s))
  }

  function Left(s: State): State {
    if s.before == "" then s
    else s.(before := DropLast(s.before), after := [s.before[|s.before| - 1]] + s.after)
  }

  function Right(s: State): State {
    if s.after == "" then s
    else s.(before := s.before + [s.after[0]], after := s.after[1..])
  }

  function Recalled(s: State, i: nat): State {
    if i < |s.history| then s.(before := s.history[i], after := "", index := Some(i)) else s
  }

  function Older(s: State): State {
    if s.history == [] then s
    else Recalled(s, match s.index case None => |s.history| - 1 case Some(i) => if i > 0 then i - 1 else 0)
  }

  function Newer(s: State): State {
    if s.index.None? then s
    else if s.index.value + 1 >= |s.history| then s.(before := "", after := "", index := None)
    else Recalled(s, s.index.value + 1)
  }

  /** As much of the text as fits, at the caret. */
  function Inserted(s: State, text: string): State {
    var used := |s.before| + |s.after|;
    s.(before := s.before + First(text, if used <= MAX_INPUT then MAX_INPUT - used else 0))
  }

  /** The history with the question, unless it repeats the latest one. */
  function Recorded(history: seq<string>, question: string): seq<string> {
    if history != [] && history[|history| - 1] == question then history else history + [question]
  }

  function Submitted(s: State): State {
    var question := Trim(s.before + s.after);
    var cleared := s.(before := "", after := "", index := None);
    if question == "" then cleared
    else if question in ["/exit", "/quit", "/q"] then cleared.(finished := true)
    else cleared.(history := LastN(Recorded(s.history, question), MAX_HISTORY), asked := question, busy := true)
  }

  /** What is inserted of a chunk of text: everything up to its first line end, made safe. */
  function Typed(s: State, data: string): State {
    Inserted(s, SafeDisplayText(data[..LineEnd(data)], MAX_INPUT))
  }

  function Edited(s: State, command: Command, data: string): State {
    match command
    case Interrupt => s.(finished := true)
    case Enter => Submitted(s)
    case Erase => s.(before := DropLast(s.before))
    case MoveLeft => Left(s)
    case MoveRight => Right(s)
    case GoOlder => Older(s)
    case GoNewer => Newer(s)
    case GoHome => s.(before := "", after := s.before + s.after)
    case GoEnd => s.(before := s.before + s.after, after := "")
    case EraseWord => s.(before := DropWord(s.before))
    case EraseLine => s.(before := "", after := "")
    case EndOfInput => s.(finished := s.before + s.after == "")
    case Unknown => s
    case Text => if LineEnd(data) < |data| then Submitted(Typed(s, data)) else Typed(s, data)
  }

  function Step(s: State, e: Event): State {
    if s.finished then s
    else
      match e
      case Key(data) =>
        if s.busy && !Decode(data).Interrupt? then s else Edited(s, Decode(data), data)
      case Answered(reply) =>
        if !s.busy then s
        else
          s.(busy := false,
             conversation :=
               if reply.None? then s.conversation
               else LastN(s.conversation + [Turn(true, s.asked), Turn(false, reply.value)], MAX_TURNS))
  }

  function Run(s: State, events: seq<Event>): State
    decreases |events|
  {
    if events == [] then s else Run(Step(s, events[0]), events[1..])
  }

  lemma {:induction false} RunAppend(s: State, a: seq<Event>, b: seq<Event>)
    ensures Run(s, a + b) == Run(Run(s, a), b)
    decreases |a|
  {
    hide Step;
    if a == [] {
      assert a + b == b;
    } else {
      assert (a + b)[0] == a[0] && (a + b)[1..] == a[1..] + b;
      RunAppend(Step(s, a[0]), a[1..], b);
    }
  }
}
