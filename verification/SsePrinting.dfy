/**
 Printing frames (the server side) and reading them back. The printer follows sections 9.2.5 and
 9.2.6 of the WHATWG HTML Living Standard, with LF line ends and one `data:` line per line of data.
 */
module SsePrinting {
  import opened Wrappers
  import opened Sequences
  import opened JsString
  import opened SseFrames

  /** What the printer accepts: an id that is not empty, and no line break in the id or the event name. */
  predicate Printable(f: SseFrame) {
    && Lacks(f.event, '\n')
    && (f.id.Some? ==> f.id.value != "" && Lacks(f.id.value, '\n'))
  }

  function Field(name: string, value: string): string {
    name + ": " + value
  }

  function DataLines(lines: seq<string>): seq<string> {
    if lines == [] then [] else DataLines(lines[..|lines| - 1]) + [Field("data", lines[|lines| - 1])]
  }

  function FrameLines(f: SseFrame): seq<string> {
    (if f.id.Some? then [Field("id", f.id.value)] else [])
    + [Field("event", f.event)]
    + (if f.data.Some? then DataLines(Split(f.data.value, "\n")) else [])
  }

  function Block(f: SseFrame): string {
    Join(FrameLines(f), "\n")
  }

  function StreamText(blocks: seq<string>): string {
    if blocks == [] then [] else blocks[0] + BLANK_LINE + StreamText(blocks[1..])
  }

  /** The server's `sseFrame`: an array of lines with two empty ones at the end, joined. */
  function ServerFrame(event: string, id: Option<string>, json: string): string {
    Join((if id.Some? && id.value != "" then [Field("id", id.value)] else [])
         + [Field("event", event), Field("data", json), "", ""], "\n")
  }

  // ---------------------------------------------------------------- printed fields

  /** A printed field is read as itself, also when its value starts with a space or holds colons. */
  lemma PrintedFieldIsRead(name: string, value: string, asked: string)
    requires name != "" && Lacks(name, ':')
    ensures ValueIn(Field(name, value), asked) == if name == asked then [value] else []
  {
    var line := Field(name, value);
    assert line == name + (": " + value);
    forall j | 0 <= j < |name| ensures !OccursAt(line, ":", j) {
      OccursOne(line, ':', j);
      assert line[j] == name[j];
    }
    OccursOne(line, ':', |name|);
    FindIs(line, ":", |name|);
    assert line[..|name|] == name && line[|name| + 1..] == " " + value;
    assert line[0] == name[0];
  }

  lemma {:induction false} ValuesConcat(a: seq<string>, b: seq<string>, name: string)
    ensures Values(a + b, name) == Values(a, name) + Values(b, name)
    decreases |b|
  {
    if b == [] {
      assert a + b == a;
    } else {
      var b', last := b[..|b| - 1], b[|b| - 1];
      assert a + b == (a + b') + [last] && b == b' + [last];
      ValuesSnoc(a + b', last, name);
      ValuesSnoc(b', last, name);
      ValuesConcat(a, b', name);
      Reassociate(Values(a, name), Values(b', name), ValueIn(last, name));
    }
  }

  lemma ValuesOne(line: string, name: string)
    ensures Values([line], name) == ValueIn(line, name)
  {
    assert [line][..0] == [];
  }

  lemma {:induction false} DataLinesAreRead(lines: seq<string>, asked: string)
    ensures Values(DataLines(lines), asked) == if asked == "data" then lines else []
  {
    hide ValueIn, Field, Values;
    if lines == [] {
      NoValues(asked);
    } else {
      var init, last := lines[..|lines| - 1], lines[|lines| - 1];
      DataLinesAreRead(init, asked);
      PrintedFieldIsRead("data", last, asked);
      DataLinesSnoc(init, last);
      ValuesSnoc(DataLines(init), Field("data", last), asked);
      assert init + [last] == lines;
      assert asked != "data" ==> init + [] == init;
    }
  }

  lemma DataLinesSnoc(lines: seq<string>, last: string)
    ensures DataLines(lines + [last]) == DataLines(lines) + [Field("data", last)]
  {
    assert (lines + [last])[..|lines|] == lines;
  }

  lemma FrameLinesAreRead(f: SseFrame, asked: string)
    requires asked == "event" || asked == "id" || asked == "data"
    ensures Values(FrameLines(f), asked)
         == if asked == "event" then [f.event]
            else if asked == "id" then (if f.id.Some? then [f.id.value] else [])
            else if f.data.Some? then Split(f.data.value, "\n") else []
  {
    hide Values, ValueIn, Split, DataLines, Field;
    var id := if f.id.Some? then [Field("id", f.id.value)] else [];
    var event := [Field("event", f.event)];
    var data := if f.data.Some? then DataLines(Split(f.data.value, "\n")) else [];
    if f.id.Some? {
      PrintedFieldIsRead("id", f.id.value, asked);
      ValuesOne(Field("id", f.id.value), asked);
    }
    PrintedFieldIsRead("event", f.event, asked);
    ValuesOne(Field("event", f.event), asked);
    if f.data.Some? {
      DataLinesAreRead(Split(f.data.value, "\n"), asked);
    }
    NoValues(asked);
    ValuesConcat(id + event, data, asked);
    ValuesConcat(id, event, asked);
    assert FrameLines(f) == id + event + data;
  }

  lemma NoValues(asked: string)
    ensures Values([], asked) == []
  {
  }

  // ---------------------------------------------------------------- printed blocks

  predicate IsPrintedLine(line: string) {
    line != [] && Lacks(line, '\n') && !IsSpace(line[0]) && line[0] != ':'
  }

  lemma {:induction false} DataLinesArePrinted(lines: seq<string>)
    requires forall l :: l in lines ==> Lacks(l, '\n')
    ensures forall l :: l in DataLines(lines) ==> IsPrintedLine(l)
  {
    if lines != [] {
      DataLinesArePrinted(lines[..|lines| - 1]);
      assert Lacks(lines[|lines| - 1], '\n');
    }
  }

  lemma FrameLinesArePrinted(f: SseFrame)
    requires Printable(f)
    ensures FrameLines(f) != [] && forall l :: l in FrameLines(f) ==> IsPrintedLine(l)
    ensures Field("event", f.event) in FrameLines(f)
  {
    if f.data.Some? {
      SplitPartsLack(f.data.value, '\n');
      DataLinesArePrinted(Split(f.data.value, "\n"));
    }
    assert IsPrintedLine(Field("event", f.event));
    assert f.id.Some? ==> IsPrintedLine(Field("id", f.id.value));
  }

  lemma {:induction false} TrimEndKeepsSolidStart(s: string)
    requires s != [] && !IsSpace(s[0])
    ensures TrimEnd(s) != []
  {
    if IsSpace(s[|s| - 1]) {
      TrimEndKeepsSolidStart(s[..|s| - 1]);
    }
  }

  lemma LinesAreRead(f: SseFrame)
    requires Printable(f)
    ensures ParseLines(FrameLines(f)) == Some(f)
  {
    hide Values, Split, Join, DataLines, FrameLines;
    FrameLinesArePrinted(f);
    assert !IsIgnorable(Field("event", f.event)) by {
      TrimEndKeepsSolidStart(Field("event", f.event));
    }
    hide IsIgnorable;
    FrameLinesAreRead(f, "event");
    FrameLinesAreRead(f, "id");
    FrameLinesAreRead(f, "data");
    if f.data.Some? {
      JoinUndoesSplit(f.data.value, "\n");
    }
  }

  /** One printed frame is read back, whatever lines its data has. */
  lemma BlockIsRead(f: SseFrame)
    requires Printable(f)
    ensures ParseFrame(Block(f)) == Some(f)
  {
    FrameLinesArePrinted(f);
    SplitUndoesJoin(FrameLines(f), '\n');
    LinesAreRead(f);
  }

  lemma {:induction false} ValuesLackLineBreaks(lines: seq<string>, name: string)
    requires forall l :: l in lines ==> Lacks(l, '\n')
    ensures forall v :: v in Values(lines, name) ==> Lacks(v, '\n')
  {
    if lines != [] {
      ValuesLackLineBreaks(lines[..|lines| - 1], name);
      assert Lacks(lines[|lines| - 1], '\n');
    }
  }

  lemma ReadFramesArePrintable(raw: string)
    ensures ParseFrame(raw).Some? ==> Printable(ParseFrame(raw).value)
  {
    hide Split, Values, IsIgnorable, Join;
    var lines := Split(raw, "\n");
    SplitPartsLack(raw, '\n');
    ValuesLackLineBreaks(lines, "event");
    ValuesLackLineBreaks(lines, "id");
    LastIsOne(Values(lines, "event"));
    LastIsOne(Values(lines, "id"));
  }

  lemma LastIsOne(values: seq<string>)
    ensures Last(values).Some? ==> Last(values).value in values
  {
  }

  /** A frame survives printing and reading exactly when it is printable. */
  lemma ReadBackIffPrintable(f: SseFrame)
    ensures ParseFrame(Block(f)) == Some(f) <==> Printable(f)
  {
    ReadFramesArePrintable(Block(f));
    if Printable(f) {
      BlockIsRead(f);
    }
  }

  /** A block that the blank line after it, and nothing earlier, ends. */
  predicate Solid(block: string) {
    Find(block + BLANK_LINE, BLANK_LINE, 0) == |block|
  }

  predicate PairAt(s: string, i: nat) {
    i + 1 < |s| && s[i] == '\n' && s[i + 1] == '\n'
  }

  lemma PairIsBlankLine(s: string, i: nat)
    ensures OccursAt(s, BLANK_LINE, i) <==> PairAt(s, i)
  {
    if i + 2 <= |s| {
      assert s[i..i + 2] == [s[i], s[i + 1]];
      assert BLANK_LINE == ['\n', '\n'];
    }
  }

  lemma {:induction false} JoinedLinesHaveNoPair(lines: seq<string>)
    requires lines != [] && lines[0] != [] && forall l :: l in lines ==> IsPrintedLine(l)
    ensures Join(lines, "\n") != [] && Join(lines, "\n")[0] == lines[0][0]
    ensures forall i :: 0 <= i < |Join(lines, "\n")| ==> !PairAt(Join(lines, "\n") + BLANK_LINE, i)
  {
    var s := Join(lines, "\n");
    var first := lines[0];
    assert IsPrintedLine(first);
    var t := s + BLANK_LINE;
    if |lines| > 1 {
      assert IsPrintedLine(lines[1]);
      JoinedLinesHaveNoPair(lines[1..]);
      var rest := Join(lines[1..], "\n");
      assert t == first + "\n" + (rest + BLANK_LINE);
      forall i | 0 <= i < |s| ensures !PairAt(t, i) {
        if i > |first| {
          assert !PairAt(rest + BLANK_LINE, i - |first| - 1);
        } else if i < |first| {
          assert t[i] == first[i];
        } else {
          assert t[i + 1] == rest[0];
        }
      }
    }
  }

  lemma PrintedBlockIsSolid(f: SseFrame)
    requires Printable(f)
    ensures Solid(Block(f))
  {
    var s := Block(f);
    FrameLinesArePrinted(f);
    JoinedLinesHaveNoPair(FrameLines(f));
    forall i | 0 <= i < |s| ensures !OccursAt(s + BLANK_LINE, BLANK_LINE, i) {
      PairIsBlankLine(s + BLANK_LINE, i);
    }
    PairIsBlankLine(s + BLANK_LINE, |s|);
    FindIs(s + BLANK_LINE, BLANK_LINE, |s|);
  }

  // ---------------------------------------------------------------- whole streams

  lemma {:induction false} SolidBlocksAreFound(blocks: seq<string>)
    requires forall b :: b in blocks ==> Solid(b)
    ensures Finished(StreamText(blocks), BLANK_LINE) == blocks
  {
    if blocks != [] {
      var head, rest := blocks[0], StreamText(blocks[1..]);
      assert Solid(head);
      FindExtends(head + BLANK_LINE, rest, BLANK_LINE);
      var text := StreamText(blocks);
      assert text == head + BLANK_LINE + rest;
      CutAppended(head + BLANK_LINE, rest, |head| + 2);
      CutAppended(head, BLANK_LINE + rest, |head|);
      Reassociate(head, BLANK_LINE, rest);
      assert (head + BLANK_LINE)[|head| + 2..] == "";
      assert text[|head| + 2..] == rest && text[..|head|] == head;
      SolidBlocksAreFound(blocks[1..]);
    }
  }

  function Blocks(frames: seq<SseFrame>): seq<string> {
    if frames == [] then [] else Blocks(frames[..|frames| - 1]) + [Block(frames[|frames| - 1])]
  }

  lemma {:induction false} PrintedBlocksAreRead(frames: seq<SseFrame>)
    requires forall f :: f in frames ==> Printable(f)
    ensures Parsed(Blocks(frames)) == frames
    ensures forall b :: b in Blocks(frames) ==> Solid(b)
  {
    hide Parsed, ParseFrame, Block, Solid, Printable;
    if frames == [] {
      ParsedNothing();
    } else {
      var init, last := frames[..|frames| - 1], frames[|frames| - 1];
      assert last in frames && forall f :: f in init ==> f in frames;
      PrintedBlocksAreRead(init);
      BlockIsRead(last);
      PrintedBlockIsSolid(last);
      ParsedSnoc(Blocks(init), Block(last));
      assert init + [last] == frames;
    }
  }

  lemma ParsedNothing()
    ensures Parsed([]) == []
  {
  }

  /** Printed frames, cut into chunks in any way, are read back exactly. */
  lemma PrintedStreamIsReadBack(frames: seq<SseFrame>, chunks: seq<string>)
    requires forall f :: f in frames ==> Printable(f)
    requires Concat(chunks) == StreamText(Blocks(frames))
    ensures FramesOf(Concat(chunks)) == frames
  {
    PrintedBlocksAreRead(frames);
    SolidBlocksAreFound(Blocks(frames));
  }

  lemma {:induction false} TwoEmptyLines(lines: seq<string>)
    requires lines != []
    ensures Join(lines + ["", ""], "\n") == Join(lines, "\n") + BLANK_LINE
  {
    var all := lines + ["", ""];
    if |lines| == 1 {
      assert all[1..] == ["", ""];
      assert Join(["", ""], "\n") == "\n" by { assert ["", ""][1..] == [""]; }
    } else {
      assert all[1..] == lines[1..] + ["", ""];
      TwoEmptyLines(lines[1..]);
    }
  }

  /** The server's printer is the standard one for data on a single line. */
  lemma ServerFrameIsBlock(event: string, id: Option<string>, json: string)
    requires Lacks(json, '\n') && (id.Some? ==> id.value != "")
    ensures ServerFrame(event, id, json) == Block(SseFrame(event, Some(json), id)) + BLANK_LINE
  {
    SplitUndoesJoin([json], '\n');
    assert Split(json, "\n") == [json];
    assert DataLines([json]) == [Field("data", json)] by { assert [json][..0] == []; }
    var lines := FrameLines(SseFrame(event, Some(json), id));
    TwoEmptyLines(lines);
    assert (if id.Some? then [Field("id", id.value)] else [])
           + [Field("event", event), Field("data", json), "", ""] == lines + ["", ""];
  }

  // ---------------------------------------------------------------- other line ends

  const LF := "\n"
  const CRLF := "\r\n"
  const CR := "\r"

  /** The text with every line ended by `eol` instead of a line feed. */
  function WithEnds(text: string, eol: string): string {
    if text == [] then [] else (if text[0] == '\n' then eol else [text[0]]) + WithEnds(text[1..], eol)
  }

  lemma {:induction false} WithLineFeeds(text: string)
    ensures WithEnds(text, LF) == text
  {
    if text != [] {
      WithLineFeeds(text[1..]);
    }
  }

  /** No line feed stands at the start or after another one. */
  predicate NoPair(text: string) {
    forall i :: 0 <= i < |text| && text[i] == '\n' ==> i > 0 && text[i - 1] != '\n'
  }

  lemma NoPairAfter(first: string, rest: string)
    requires NoPair(first) && NoPair(rest)
    ensures NoPair(first + rest)
  {
    forall i | 0 <= i < |first + rest| && (first + rest)[i] == '\n' ensures i > 0 && (first + rest)[i - 1] != '\n' {
      if i >= |first| {
        assert rest[i - |first|] == '\n';
        assert (first + rest)[i - 1] == rest[i - 1 - |first|];
      }
    }
  }

  lemma {:induction false} WithReturnsHasNoPair(text: string, eol: string)
    requires eol == CRLF || eol == CR
    ensures NoPair(WithEnds(text, eol))
  {
    if text != [] {
      var first := if text[0] == '\n' then eol else [text[0]];
      assert NoPair(first);
      WithReturnsHasNoPair(text[1..], eol);
      NoPairAfter(first, WithEnds(text[1..], eol));
    }
  }

  lemma NoPairNoFrame(text: string)
    requires NoPair(text)
    ensures FramesOf(text) == []
  {
    FindIsLeftmost(text, BLANK_LINE, 0);
    forall i | 0 <= i <= |text| ensures !OccursAt(text, BLANK_LINE, i) {
      PairIsBlankLine(text, i);
    }
  }

  /**
   The standard allows three line ends; this framer reads one of them. Printed frames are read back
   if and only if the lines end in line feeds, or there is no frame to read.
   */
  lemma ReadBackIffLineFeeds(frames: seq<SseFrame>, eol: string)
    requires (forall f :: f in frames ==> Printable(f)) && (eol == LF || eol == CRLF || eol == CR)
    ensures FramesOf(WithEnds(StreamText(Blocks(frames)), eol)) == frames <==> eol == LF || frames == []
  {
    hide FramesOf, StreamText, Blocks, Printable;
    var text := StreamText(Blocks(frames));
    PrintedStreamIsReadBack(frames, [text]);
    assert Concat([text]) == text + Concat([]) == text by { assert [text][1..] == []; }
    WithLineFeeds(text);
    if eol != LF {
      WithReturnsHasNoPair(text, eol);
      NoPairNoFrame(WithEnds(text, eol));
    }
  }
}
