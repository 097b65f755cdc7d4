/**
 What one block of lines means, on its characters: which blocks hold no frame, which lines spell a field,
 and the frame that the spelled fields make. Nothing here goes through the parser's own helpers.
 */
module SseFields {
  import opened Wrappers
  import opened Sequences
  import opened JsString
  import opened SseFrames

  /** A line that says nothing: no characters, a comment, or spaces only. */
  predicate SaysNothing(line: string) {
    line == "" || line[0] == ':' || forall c :: c in line ==> IsSpace(c)
  }

  /** The three ways of spelling a field: without a colon, after a colon, and after a colon and one space. */
  predicate Spells(line: string, name: string, value: string) {
    || (line == name && value == "")
    || (line == name + ":" + value && (value == "" || value[0] != ' '))
    || line == name + ": " + value
  }

  /** `values` are the values of the lines that spell `name`, which stand at the positions `at`. */
  ghost predicate SpelledAt(lines: seq<string>, name: string, values: seq<string>, at: seq<nat>) {
    && |at| == |values|
    && (forall k :: 0 <= k < |at| ==> at[k] < |lines| && Spells(lines[at[k]], name, values[k]))
    && (forall j, k :: 0 <= j < k < |at| ==> at[j] < at[k])
    && (forall i: nat, value :: i < |lines| && Spells(lines[i], name, value) ==> i in at)
  }

  ghost predicate Spelled(lines: seq<string>, name: string, values: seq<string>) {
    exists at: seq<nat> :: SpelledAt(lines, name, values, at)
  }

  predicate IsName(name: string) {
    name != "" && Lacks(name, ':')
  }

  // ---------------------------------------------------------------- one line

  lemma ColonIsFound(name: string, rest: string)
    requires Lacks(name, ':')
    ensures Find(name + ":" + rest, ":", 0) == |name|
  {
    var line := name + ":" + rest;
    forall j | 0 <= j < |name| ensures !OccursAt(line, ":", j) {
      OccursOne(line, ':', j);
      assert line[j] == name[j];
    }
    OccursOne(line, ':', |name|);
    FindIs(line, ":", |name|);
  }

  lemma NoColonIsFound(line: string)
    requires Lacks(line, ':')
    ensures Find(line, ":", 0) > |line|
  {
    FindIsLeftmost(line, ":", 0);
    if Find(line, ":", 0) <= |line| {
      OccursOne(line, ':', Find(line, ":", 0));
    }
  }

  lemma SpelledIsRead(line: string, name: string, value: string)
    requires IsName(name) && Spells(line, name, value)
    ensures ValueIn(line, name) == [value]
  {
    assert line[0] == name[0] && name[0] in name;
    if line == name {
      NoColonIsFound(line);
    } else {
      var rest := if line == name + ": " + value then " " + value else value;
      assert line == name + ":" + rest;
      ColonIsFound(name, rest);
      assert line[|name| + 1..] == rest && line[..|name|] == name;
      assert (" " + value)[1..] == value;
    }
  }

  lemma ReadIsSpelled(line: string, name: string)
    requires IsName(name) && ValueIn(line, name) != []
    ensures Spells(line, name, ValueIn(line, name)[0])
  {
    var i := Find(line, ":", 0);
    FindIsLeftmost(line, ":", 0);
    if i <= |line| {
      OccursOne(line, ':', i);
      var rest := line[i + 1..];
      assert line == name + ":" + rest;
      if rest != "" && rest[0] == ' ' {
        assert line == name + ": " + rest[1..];
      }
    }
  }

  /** A line gives a field a value exactly when it spells the field with that value. */
  lemma ReadIffSpelled(line: string, name: string, value: string)
    requires IsName(name)
    ensures ValueIn(line, name) == [value] <==> Spells(line, name, value)
  {
    if Spells(line, name, value) {
      SpelledIsRead(line, name, value);
    }
    if ValueIn(line, name) == [value] {
      ReadIsSpelled(line, name);
    }
  }

  // ---------------------------------------------------------------- the lines of a block

  lemma {:induction false} ValuesAreSpelled(lines: seq<string>, name: string) returns (at: seq<nat>)
    requires IsName(name)
    ensures SpelledAt(lines, name, Values(lines, name), at)
  {
    hide ValueIn, Spells;
    at := [];
    if lines != [] {
      var init, last := lines[..|lines| - 1], lines[|lines| - 1];
      at := ValuesAreSpelled(init, name);
      forall value ensures ValueIn(last, name) == [value] <==> Spells(last, name, value) {
        ReadIffSpelled(last, name, value);
      }
      AtMostOneValue(last, name);
      if ValueIn(last, name) != [] {
        at := at + [|init|];
      }
    }
  }

  lemma AtMostOneValue(line: string, name: string)
    ensures ValueIn(line, name) == [] || ValueIn(line, name) == [ValueIn(line, name)[0]]
  {
  }

  lemma SpellingIsUnique(line: string, name: string, a: string, b: string)
    requires IsName(name) && Spells(line, name, a) && Spells(line, name, b)
    ensures a == b
  {
    SpelledIsRead(line, name, a);
    SpelledIsRead(line, name, b);
  }

  lemma {:induction false} IncreasingAreEqual(a: seq<nat>, b: seq<nat>)
    requires forall j, k :: 0 <= j < k < |a| ==> a[j] < a[k]
    requires forall j, k :: 0 <= j < k < |b| ==> b[j] < b[k]
    requires forall x :: x in a <==> x in b
    ensures a == b
    decreases |a|
  {
    if a != [] {
      assert a[0] in b;
    }
    if b != [] {
      assert b[0] in a;
    }
    if a != [] && b != [] {
      var a', b' := a[..|a| - 1], b[..|b| - 1];
      var x, y := a[|a| - 1], b[|b| - 1];
      assert x in a && y in b;
      assert x == y;
      assert forall z :: z in a' <==> z in a && z != x;
      assert forall z :: z in b' <==> z in b && z != y;
      IncreasingAreEqual(a', b');
    }
  }

  lemma SpelledIsUnique(lines: seq<string>, name: string, a: seq<string>, b: seq<string>)
    requires IsName(name) && Spelled(lines, name, a) && Spelled(lines, name, b)
    ensures a == b
  {
    hide Spells;
    var at :| SpelledAt(lines, name, a, at);
    var bt :| SpelledAt(lines, name, b, bt);
    IncreasingAreEqual(at, bt);
    forall k | 0 <= k < |a| ensures a[k] == b[k] {
      SpellingIsUnique(lines[at[k]], name, a[k], b[k]);
    }
  }

  /** The values read for a field are, in order, those of all the lines that spell it. */
  lemma ValuesIffSpelled(lines: seq<string>, name: string, values: seq<string>)
    requires IsName(name)
    ensures values == Values(lines, name) <==> Spelled(lines, name, values)
  {
    hide SpelledAt, Values;
    var at := ValuesAreSpelled(lines, name);
    if Spelled(lines, name, values) {
      SpelledIsUnique(lines, name, values, Values(lines, name));
    }
  }

  lemma IgnorableIff(line: string)
    ensures IsIgnorable(line) <==> SaysNothing(line)
  {
    TrimmedToNothingIff(line);
  }

  /** No frame is read exactly from a block in which every line is empty, a comment or spaces only. */
  lemma NoFrameIff(raw: string)
    ensures ParseFrame(raw).None? <==> forall line :: line in Split(raw, "\n") ==> SaysNothing(line)
  {
    hide IsIgnorable, SaysNothing, Split;
    forall line ensures IsIgnorable(line) <==> SaysNothing(line) {
      IgnorableIff(line);
    }
  }

  /**
   The frame of a block that says something: the last event name or "message", the data lines joined, and the
   last id unless it is empty.
   */
  lemma FrameIsSpelled(raw: string, events: seq<string>, data: seq<string>, ids: seq<string>)
    requires exists line :: line in Split(raw, "\n") && !SaysNothing(line)
    requires Spelled(Split(raw, "\n"), "event", events) && Spelled(Split(raw, "\n"), "data", data)
    requires Spelled(Split(raw, "\n"), "id", ids)
    ensures ParseFrame(raw) == Some(SseFrame(
                                      if events == [] then "message" else events[|events| - 1],
                                      if data == [] then None else Some(Join(data, "\n")),
                                      if ids == [] || ids[|ids| - 1] == "" then None else Some(ids[|ids| - 1])))
  {
    hide SaysNothing, Split, Spelled, Values, IsIgnorable;
    NoFrameIff(raw);
    ValuesIffSpelled(Split(raw, "\n"), "event", events);
    ValuesIffSpelled(Split(raw, "\n"), "data", data);
    ValuesIffSpelled(Split(raw, "\n"), "id", ids);
  }

  /** Every block has such lists, so `FrameIsSpelled` settles every block that says something. */
  lemma EveryBlockIsSpelled(raw: string) returns (events: seq<string>, data: seq<string>, ids: seq<string>)
    ensures Spelled(Split(raw, "\n"), "event", events) && Spelled(Split(raw, "\n"), "data", data)
    ensures Spelled(Split(raw, "\n"), "id", ids)
  {
    events, data, ids := Values(Split(raw, "\n"), "event"), Values(Split(raw, "\n"), "data"),
      Values(Split(raw, "\n"), "id");
    ValuesIffSpelled(Split(raw, "\n"), "event", events);
    ValuesIffSpelled(Split(raw, "\n"), "data", data);
    ValuesIffSpelled(Split(raw, "\n"), "id", ids);
  }

  /** A block without an event field is a plain message, which the stream client passes over. */
  lemma NoEventFieldIsMessage(raw: string)
    requires forall line :: line in Split(raw, "\n") ==> line != "event" && !("event:" <= line)
    ensures ParseFrame(raw).Some? ==> ParseFrame(raw).value.event == "message"
  {
    hide Split, Values, IsIgnorable;
    var lines := Split(raw, "\n");
    forall i: nat, value | i < |lines| ensures !Spells(lines[i], "event", value) {
      assert lines[i] in lines;
      assert "event:" <= "event:" + value && "event:" <= "event: " + value;
    }
    assert SpelledAt(lines, "event", [], []);
    ValuesIffSpelled(lines, "event", []);
  }
}
