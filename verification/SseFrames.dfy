/**
 The Server-Sent Events framer of packages/platform-client/src/client.ts: text arrives in chunks
 cut anywhere, and frames leave in order. `FramesOf` says what a whole text holds, without chunks;
 `Print` is the server's printer (apps/web/app/api/runs/[runId]/events/stream/route.ts).
 */
module SseFrames {
  import opened Wrappers
  import opened Sequences
  import opened JsString

  datatype SseFrame = SseFrame(event: string, data: Option<string>, id: Option<string>)

  const BLANK_LINE := "\n\n"

  // ---------------------------------------------------------------- one frame

  function FieldName(line: string): string {
    var i := Find(line, ":", 0);
    if i <= |line| then line[..i] else line
  }

  function FieldValue(line: string): string {
    var i := Find(line, ":", 0);
    if i <= |line| then WithoutOneSpace(line[i + 1..]) else ""
  }

  function WithoutOneSpace(s: string): string {
    if s != [] && s[0] == ' ' then s[1..] else s
  }

  predicate IsComment(line: string) {
    line != [] && line[0] == ':'
  }

  predicate IsIgnorable(line: string) {
    IsComment(line) || Trim(line) == []
  }

  /** The values of all fields called `name`, in order. */
  function Values(lines: seq<string>, name: string): seq<string> {
    if lines == [] then []
    else
      Values(lines[..|lines| - 1], name) + ValueIn(lines[|lines| - 1], name)
  }

  function ValueIn(line: string, name: string): seq<string> {
    if line != [] && !IsComment(line) && FieldName(line) == name then [FieldValue(line)] else []
  }

  lemma ValuesSnoc(lines: seq<string>, last: string, name: string)
    ensures Values(lines + [last], name) == Values(lines, name) + ValueIn(last, name)
  {
    assert (lines + [last])[..|lines|] == lines;
  }

  lemma ValuesStep(lines: seq<string>, i: nat, name: string)
    requires i < |lines|
    ensures Values(lines[..i + 1], name) == Values(lines[..i], name) + ValueIn(lines[i], name)
    ensures Last(Values(lines[..i + 1], name))
         == if ValueIn(lines[i], name) == [] then Last(Values(lines[..i], name)) else Some(ValueIn(lines[i], name)[0])
  {
    assert lines[..i + 1][..i] == lines[..i];
  }

  lemma NoFields(lines: seq<string>)
    ensures forall name: string :: Values(lines[..0], name) == []
  {
  }

  function Last(values: seq<string>): Option<string> {
    if values == [] then None else Some(values[|values| - 1])
  }

  function OrDefault(value: Option<string>, default: string): string {
    if value.Some? then value.value else default
  }

  function ParseLines(lines: seq<string>): Option<SseFrame> {
    if forall line | line in lines :: IsIgnorable(line) then None
    else
      var id, data := Last(Values(lines, "id")), Values(lines, "data");
      Some(SseFrame(
             OrDefault(Last(Values(lines, "event")), "message"),
             if data == [] then None else Some(Join(data, "\n")),
             if id == Some("") then None else id))
  }

  function ParseFrame(raw: string): Option<SseFrame> {
    ParseLines(Split(raw, "\n"))
  }

  method ParseSseFrame(raw: string) returns (frame: Option<SseFrame>)
    ensures frame == ParseFrame(raw)
  {
    hide Values, Split, Trim, Find;
    var lines := Split(raw, "\n");
    if forall line | line in lines :: IsIgnorable(line) {
      return None;
    }
    NoFields(lines);
    var event, id, data := "message", None, [];
    for i := 0 to |lines|
      invariant event == OrDefault(Last(Values(lines[..i], "event")), "message")
      invariant id == Last(Values(lines[..i], "id"))
      invariant data == Values(lines[..i], "data")
    {
      var line := lines[i];
      ValuesStep(lines, i, "event");
      ValuesStep(lines, i, "id");
      ValuesStep(lines, i, "data");
      if IsComment(line) || line == [] {
        continue;
      }
      var field, value := FieldName(line), FieldValue(line);
      if field == "event" { event := value; }
      if field == "id" { id := Some(value); }
      if field == "data" { data := data + [value]; }
    }
    assert lines[..|lines|] == lines;
    frame := Some(SseFrame(
                    event,
                    if data == [] then None else Some(Join(data, "\n")),
                    if id == Some("") then None else id));
  }

  // ---------------------------------------------------------------- the stream

  /** The frames that raw blocks hold; comment blocks hold none. */
  function Parsed(blocks: seq<string>): seq<SseFrame> {
    if blocks == [] then []
    else Parsed(blocks[..|blocks| - 1]) + OneOrNone(ParseFrame(blocks[|blocks| - 1]))
  }

  function OneOrNone(frame: Option<SseFrame>): seq<SseFrame> {
    if frame.Some? then [frame.value] else []
  }

  /** All the frames of a text: blocks that a blank line ends. The unfinished tail is dropped. */
  function FramesOf(text: string): seq<SseFrame> {
    Parsed(Finished(text, BLANK_LINE))
  }

  lemma ParsedSnoc(blocks: seq<string>, last: string)
    ensures Parsed(blocks + [last]) == Parsed(blocks) + OneOrNone(ParseFrame(last))
  {
    assert (blocks + [last])[..|blocks|] == blocks;
  }

  lemma ParsedStep(blocks: seq<string>, i: nat)
    requires i < |blocks|
    ensures Parsed(blocks[..i + 1]) == Parsed(blocks[..i]) + OneOrNone(ParseFrame(blocks[i]))
  {
    assert blocks[..i + 1] == blocks[..i] + [blocks[i]];
    ParsedSnoc(blocks[..i], blocks[i]);
  }

  lemma {:induction false} ParsedConcat(a: seq<string>, b: seq<string>)
    ensures Parsed(a + b) == Parsed(a) + Parsed(b)
    decreases |b|
  {
    if b == [] {
      assert a + b == a;
    } else {
      var b', last := b[..|b| - 1], [b[|b| - 1]];
      assert b == b' + last && a + b == (a + b') + last;
      ParsedSnoc(a + b', b[|b| - 1]);
      ParsedSnoc(b', b[|b| - 1]);
      ParsedConcat(a, b');
      Reassociate(Parsed(a), Parsed(b'), OneOrNone(ParseFrame(b[|b| - 1])));
    }
  }

  method ParseBlocks(blocks: seq<string>) returns (frames: seq<SseFrame>)
    ensures frames == Parsed(blocks)
  {
    frames := [];
    for i := 0 to |blocks|
      invariant frames == Parsed(blocks[..i])
    {
      ParsedStep(blocks, i);
      var parsed := ParseSseFrame(blocks[i]);
      if parsed.Some? {
        frames := frames + [parsed.value];
      }
    }
    assert blocks[..|blocks|] == blocks;
  }

  lemma NothingRead(chunks: seq<string>)
    ensures FramesOf(Concat(chunks[..0])) == [] && Tail(Concat(chunks[..0]), BLANK_LINE) == ""
  {
  }

  /** However the text is cut into chunks, the frames are those of the whole text. */
  method ReadSseFrames(chunks: seq<string>) returns (frames: seq<SseFrame>)
    ensures frames == FramesOf(Concat(chunks))
  {
    hide Find, Split, Parsed, Finished, Tail, Concat;
    frames := [];
    var buffer := "";
    NothingRead(chunks);
    for n := 0 to |chunks|
      invariant frames == FramesOf(Concat(chunks[..n]))
      invariant buffer == Tail(Concat(chunks[..n]), BLANK_LINE)
    {
      ghost var sofar := Concat(chunks[..n]);
      assert chunks[..n + 1] == chunks[..n] + [chunks[n]];
      ConcatSnoc(chunks[..n], chunks[n]);
      SplitExtends(sofar, chunks[n], BLANK_LINE);
      buffer := buffer + chunks[n];
      SplitThenPop(buffer, BLANK_LINE);
      ParsedConcat(Finished(sofar, BLANK_LINE), Finished(buffer, BLANK_LINE));
      var parts := Split(buffer, BLANK_LINE);
      var parsed := ParseBlocks(parts[..|parts| - 1]);
      frames := frames + parsed;
      buffer := parts[|parts| - 1];
    }
    assert chunks[..|chunks|] == chunks;
  }

  /** A stream that breaks off early has yielded the first frames of what it would have yielded. */
  lemma CutStreamYieldsPrefix(text: string, lost: string)
    ensures FramesOf(text) <= FramesOf(text + lost)
  {
    SplitExtends(text, lost, BLANK_LINE);
    ParsedConcat(Finished(text, BLANK_LINE), Finished(Tail(text, BLANK_LINE) + lost, BLANK_LINE));
  }
}
