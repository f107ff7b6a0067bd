/**
 The read loop of the live-stream client: decoded text arrives in chunks cut anywhere,
 CRLF is turned into LF, blocks are cut off at blank lines, and a byte limit guards the
 buffer. The reference it is held against parses the whole text once.
 */
module Sse {
  import opened Wrappers
  import opened JsText

  /** The limit in use; what follows holds for any limit. */
  const MAX_FRAME_BYTES: nat := 256 * 1024

  // ---------------------------------------------------------------- text primitives

  function CharSize(c: char): (n: nat)
    ensures 1 <= n <= 4
  {
    var p := c as int;
    if p < 0x80 then 1 else if p < 0x800 then 2 else if p < 0x10000 then 3 else 4
  }

  /** The number of bytes of the UTF-8 encoding. */
  function Utf8Size(s: string): nat {
    if s == "" then 0 else CharSize(s[0]) + Utf8Size(s[1..])
  }

  /** `replaceAll("\r\n", "\n")`: one pass from the left. */
  function Normalize(s: string): string {
    if s == "" then ""
    else if |s| >= 2 && s[0] == '\r' && s[1] == '\n' then "\n" + Normalize(s[2..])
    else [s[0]] + Normalize(s[1..])
  }

  predicate BlankAt(s: string, i: int) {
    0 <= i && i + 1 < |s| && s[i] == '\n' && s[i + 1] == '\n'
  }

  /** `indexOf("\n\n")`. */
  function FirstBlank(s: string): (i: int)
    ensures i == -1 || BlankAt(s, i)
    ensures i == -1 ==> forall k :: !BlankAt(s, k)
    ensures forall k :: 0 <= k < i ==> !BlankAt(s, k)
  {
    if |s| < 2 then -1
    else if s[0] == '\n' && s[1] == '\n' then 0
    else
      var rest := FirstBlank(s[1..]);
      assert forall k | k >= 1 :: BlankAt(s, k) == BlankAt(s[1..], k - 1);
      if rest == -1 then -1 else rest + 1
  }

  // ---------------------------------------------------------------- the one-shot parser

  /** The blocks of a whole text: what stands before each blank line, from the left. */
  function Complete(s: string): seq<string>
    decreases |s|
  {
    var i := FirstBlank(s);
    if i == -1 then [] else [s[..i]] + Complete(s[i + 2..])
  }

  /** The unterminated rest after the last block. */
  function Tail(s: string): (t: string)
    ensures |t| <= |s|
    decreases |s|
  {
    var i := FirstBlank(s);
    if i == -1 then s else Tail(s[i + 2..])
  }

  /** A block list written back as text. */
  function Rejoin(blocks: seq<string>): string {
    if blocks == [] then "" else blocks[0] + "\n\n" + Rejoin(blocks[1..])
  }

  function Concat(chunks: seq<string>): string {
    if chunks == [] then "" else chunks[0] + Concat(chunks[1..])
  }

  // ---------------------------------------------------------------- the streaming state

  /** What the read loop holds: the blocks it has taken, the retained buffer, and whether it gave up. */
  datatype Stream = Stream(blocks: seq<string>, buffer: string, failed: bool)

  const Start := Stream([], "", false)

  /** The inner loop: cut blocks until no blank line is left or a block is too large. */
  function Cut(limit: nat, st: Stream): Stream
    decreases |st.buffer|
  {
    var i := FirstBlank(st.buffer);
    if i == -1 || st.failed then st
    else
      var block, rest := st.buffer[..i], st.buffer[i + 2..];
      if Utf8Size(block) > limit then Stream(st.blocks, rest, true)
      else Cut(limit, Stream(st.blocks + [block], rest, false))
  }

  /** One `reader.read()` that returned a chunk. */
  function Read(limit: nat, st: Stream, chunk: string): Stream {
    if st.failed then st
    else
      var cut := Cut(limit, st.(buffer := Normalize(st.buffer + chunk)));
      if !cut.failed && Utf8Size(cut.buffer) > limit then cut.(failed := true) else cut
  }

  function Run(limit: nat, st: Stream, chunks: seq<string>): Stream
    decreases |chunks|
  {
    if chunks == [] then st else Run(limit, Read(limit, st, chunks[0]), chunks[1..])
  }

  // ---------------------------------------------------------------- block payloads

  /** The event name after one more line; only an `event:` line changes it. */
  function EventAfter(event: string, line: string): string {
    if StartsWith(line, "event:") then Trim(line[6..]) else event
  }

  /** What one line adds to the data; only a `data:` line adds anything. */
  function DataOf(line: string): seq<string> {
    if StartsWith(line, "data:") then [TrimStart(line[5..])] else []
  }

  function EventField(lines: seq<string>, event: string): string {
    if lines == [] then event else EventField(lines[1..], EventAfter(event, lines[0]))
  }

  function DataLines(lines: seq<string>): seq<string> {
    if lines == [] then [] else DataOf(lines[0]) + DataLines(lines[1..])
  }

  /** The text a block hands to the frame decoder, if it is a stage event with data. */
  function Payload(block: string): Option<string> {
    var lines := SplitLines(block);
    var data := JoinLines(DataLines(lines));
    if EventField(lines, "message") == "stage" && data != "" then Some(data) else None
  }

  function Payloads(blocks: seq<string>): seq<string> {
    if blocks == [] then []
    else
      var rest := Payloads(blocks[1..]);
      match Payload(blocks[0]) case Some(data) => [data] + rest case None => rest
  }

  // ---------------------------------------------------------------- the code

  method DecodeBlock(block: string) returns (payload: Option<string>)
    ensures payload == Payload(block)
  {
    var lines := SplitLines(block);
    var event, dataLines := DecodeLines(lines);
    var data := JoinLines(dataLines);
    payload := if event == "stage" && data != "" then Some(data) else None;
  }

  method DecodeLines(lines: seq<string>) returns (event: string, dataLines: seq<string>)
    ensures event == EventField(lines, "message")
    ensures dataLines == DataLines(lines)
  {
    event, dataLines := "message", [];
    ghost var name, data := EventField(lines, "message"), DataLines(lines);
    for i := 0 to |lines|
      invariant EventField(lines[i..], event) == name
      invariant dataLines + DataLines(lines[i..]) == data
    {
      FieldsStep(lines, i, event, dataLines);
      event, dataLines := DecodeLine(lines[i], event, dataLines);
    }
    assert lines[|lines|..] == [];
  }

  lemma FieldsStep(lines: seq<string>, i: nat, event: string, dataLines: seq<string>)
    requires i < |lines|
    ensures EventField(lines[i..], event) == EventField(lines[i + 1..], EventAfter(event, lines[i]))
    ensures dataLines + DataLines(lines[i..]) == dataLines + DataOf(lines[i]) + DataLines(lines[i + 1..])
  {
    assert lines[i..][1..] == lines[i + 1..];
  }

  method DecodeLine(line: string, event: string, dataLines: seq<string>)
    returns (event': string, dataLines': seq<string>)
    ensures event' == EventAfter(event, line)
    ensures dataLines' == dataLines + DataOf(line)
  {
    event', dataLines' := event, dataLines;
    if StartsWith(line, "event:") {
      assert line[0] == 'e';
      event' := Trim(line[6..]);
    } else if StartsWith(line, "data:") {
      dataLines' := dataLines + [TrimStart(line[5..])];
    }
  }

  /** The whole read loop. `delivered` is what reached the frame decoder, in order. */
  method ConsumeSse(limit: nat, chunks: seq<string>) returns (delivered: seq<string>, closed: bool)
    ensures delivered == Payloads(Run(limit, Start, chunks).blocks)
    ensures closed == !Run(limit, Start, chunks).failed
  {
    hide Utf8Size, Payload, Normalize, FirstBlank;
    var buffer := "";
    delivered := [];
    ghost var blocks: seq<string> := [];
    var next := 0;
    while next < |chunks|
      invariant 0 <= next <= |chunks|
      invariant Run(limit, Stream(blocks, buffer, false), chunks[next..]) == Run(limit, Start, chunks)
      invariant delivered == Payloads(blocks)
    {
      ghost var before := Stream(blocks, buffer, false);
      assert chunks[next..][0] == chunks[next] && chunks[next..][1..] == chunks[next + 1..];
      buffer := Normalize(buffer + chunks[next]);
      ghost var cut := Cut(limit, Stream(blocks, buffer, false));
      var boundary := FirstBlank(buffer);
      while boundary >= 0
        invariant boundary == FirstBlank(buffer)
        invariant Cut(limit, Stream(blocks, buffer, false)) == cut
        invariant delivered == Payloads(blocks)
        decreases |buffer|
      {
        var block := buffer[..boundary];
        buffer := buffer[boundary + 2..];
        if Utf8Size(block) > limit {
          RunFailed(limit, Read(limit, before, chunks[next]), chunks[next + 1..]);
          return delivered, false;
        }
        var payload := DecodeBlock(block);
        match payload {
          case Some(data) => delivered := delivered + [data];
          case None =>
        }
        PayloadsSnoc(blocks, block);
        blocks := blocks + [block];
        boundary := FirstBlank(buffer);
      }
      if Utf8Size(buffer) > limit {
        RunFailed(limit, Read(limit, before, chunks[next]), chunks[next + 1..]);
        return delivered, false;
      }
      next := next + 1;
    }
    closed := true;
  }

  lemma {:induction false} RunFailed(limit: nat, st: Stream, chunks: seq<string>)
    requires st.failed
    ensures Run(limit, st, chunks) == st
    decreases |chunks|
  {
    if chunks != [] { RunFailed(limit, st, chunks[1..]); }
  }

  lemma {:induction false} PayloadsSnoc(blocks: seq<string>, block: string)
    ensures Payloads(blocks + [block]) == Payloads(blocks) + Payloads([block])
  {
    hide Payload;
    if blocks != [] {
      PayloadsSnoc(blocks[1..], block);
      assert (blocks + [block])[1..] == blocks[1..] + [block];
    }
  }
}
