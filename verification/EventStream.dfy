/**
 `streamRunEvents` of packages/platform-client/src/client.ts: a consumer that reconnects, skips
 what it has seen, and resumes from a cursor. The network is a script of connections; callbacks
 and sleeps answer as any function of what happened so far. Everything the client does is a `Call`
 in a trace, so the results below are about every run.
 */
module EventStream {
  import opened Wrappers
  import opened Numbers
  import opened JsString
  import opened SseFrames

  datatype Call =
    | Fetch(after: Option<string>)
    | Opened
    | OnEvent(event_id: string)
    | OnError
    | OnReconnect(attempt: nat, cursor: Option<string>)
    | Sleep(ms: nat)

  /** What a callback does: return, throw, or abort the signal and return. */
  datatype Reply = Fine | Throws | Aborts

  /** What `JSON.parse` makes of a frame's data. */
  datatype Decoded = Malformed | Envelope(event_id: string)

  datatype Env = Env(decode: string -> Decoded, reply: seq<Call> -> Reply)

  datatype Ending = Closed | Dropped | Aborted

  /** One `fetch`: refused (an error or a status that is not ok), or a body in chunks and its end. */
  datatype Connection = Refused(aborted: bool) | Streaming(chunks: seq<string>, ending: Ending)

  datatype Client = Client(
    after: Option<string>,
    attempt: nat,
    seen: set<string>,
    trace: seq<Call>,
    aborted: bool,
    escaped: bool)
  {
    predicate Stopped() {
      aborted || escaped
    }

    function Do(call: Call): Client {
      this.(trace := trace + [call])
    }

    /** A callback; `aborted` is the signal, which stays set. */
    function Ask(env: Env, call: Call): Client {
      this.(trace := trace + [call], aborted := aborted || env.reply(trace + [call]) == Aborts)
    }

    predicate Threw(env: Env) {
      env.reply(trace) == Throws
    }
  }

  datatype Step = Step(client: Client, threw: bool)

  function Backoff(attempt: nat): nat {
    Min(10000, 500 * Pow2(Min(5, attempt)))
  }

  /** An empty cursor is falsy and is not sent. */
  function Sent(after: Option<string>): Option<string> {
    if after == Some("") then None else after
  }

  // ---------------------------------------------------------------- the client, as a function

  function HandleFrame(env: Env, s: Client, f: SseFrame): Step {
    if f.data == None || f.data == Some("") || f.event == "message" then Step(s, false)
    else if f.event == "run.error" then
      var asked := s.Ask(env, OnError);
      Step(asked, asked.Threw(env))
    else if f.event != "run.event" then Step(s, false)
    else
      match env.decode(f.data.value)
      case Malformed => Step(s, true)
      case Envelope(id) =>
        if id in s.seen then Step(s, false)
        else
          var asked := s.(seen := s.seen + {id}, after := Some(id)).Ask(env, OnEvent(id));
          Step(asked, asked.Threw(env))
  }

  function HandleFrames(env: Env, s: Client, frames: seq<SseFrame>): Step
    decreases |frames|
  {
    if frames == [] || s.aborted then Step(s, false)
    else
      var step := HandleFrame(env, s, frames[0]);
      if step.threw then step else HandleFrames(env, step.client, frames[1..])
  }

  function Recover(env: Env, s: Client): Client {
    var attempt := s.attempt + 1;
    var told := s.(attempt := attempt).Ask(env, OnError);
    if told.Threw(env) then told.(escaped := true)
    else
      var announced := told.Ask(env, OnReconnect(attempt, told.after));
      if announced.Threw(env) then announced.(escaped := true)
      else announced.Ask(env, Sleep(Backoff(attempt)))
  }

  function Connect(env: Env, s: Client, c: Connection): Client {
    var asked := s.Do(Fetch(Sent(s.after)));
    match c
    case Refused(aborted) => if aborted then asked.(aborted := true) else Recover(env, asked)
    case Streaming(chunks, ending) =>
      var step := HandleFrames(env, asked.(attempt := 0).Do(Opened), FramesOf(Concat(chunks)));
      if step.client.aborted then step.client
      else if step.threw || ending == Dropped then Recover(env, step.client)
      else if ending == Aborted then step.client.(aborted := true)
      else step.client
  }

  function Run(env: Env, s: Client, script: seq<Connection>): Client
    decreases |script|
  {
    if script == [] || s.Stopped() then s
    else Run(env, Connect(env, s, script[0]), script[1..])
  }

  function Start(after: Option<string>): Client {
    Client(after, 0, {}, [], false, false)
  }

  // ---------------------------------------------------------------- the client, as loops

  /** The `for await` loop over one body; `threw` says that it left through the `catch`. */
  method Consume(env: Env, start: Client, chunks: seq<string>) returns (end: Client, threw: bool)
    ensures Step(end, threw) == HandleFrames(env, start, FramesOf(Concat(chunks)))
  {
    var frames := ReadSseFrames(chunks);
    end, threw := start, false;
    var i := 0;
    while i < |frames| && !end.aborted && !threw
      invariant 0 <= i <= |frames|
      invariant HandleFrames(env, start, frames)
             == if threw then Step(end, true) else HandleFrames(env, end, frames[i..])
    {
      assert frames[i..][0] == frames[i] && frames[i..][1..] == frames[i + 1..];
      var frame := frames[i];
      i := i + 1;
      if frame.data == None || frame.data == Some("") || frame.event == "message" {
        continue;
      }
      if frame.event == "run.error" {
        end := end.Ask(env, OnError);
        threw := end.Threw(env);
        continue;
      }
      if frame.event != "run.event" {
        continue;
      }
      match env.decode(frame.data.value) {
        case Malformed =>
          threw := true;
        case Envelope(id) =>
          if id in end.seen { continue; }
          end := end.(seen := end.seen + {id}, after := Some(id));
          end := end.Ask(env, OnEvent(id));
          threw := end.Threw(env);
      }
    }
  }

  /** The `catch` block. */
  method HandleFailure(env: Env, start: Client) returns (end: Client)
    ensures end == Recover(env, start)
  {
    end := start.(attempt := start.attempt + 1);
    end := end.Ask(env, OnError);
    if end.Threw(env) {
      return end.(escaped := true);
    }
    end := end.Ask(env, OnReconnect(end.attempt, end.after));
    if end.Threw(env) {
      return end.(escaped := true);
    }
    end := end.Ask(env, Sleep(Backoff(end.attempt)));
  }

  /** The outer loop: connect, consume, and on failure tell the callbacks and wait. */
  method StreamRunEvents(env: Env, initial: Option<string>, script: seq<Connection>) returns (end: Client)
    ensures end == Run(env, Start(initial), script)
  {
    end := Start(initial);
    var n := 0;
    while n < |script| && !end.Stopped()
      invariant 0 <= n <= |script|
      invariant Run(env, end, script[n..]) == Run(env, Start(initial), script)
    {
      assert script[n..][0] == script[n] && script[n..][1..] == script[n + 1..];
      end := end.Do(Fetch(Sent(end.after)));
      var failed := false;
      match script[n] {
        case Refused(aborted) =>
          end := end.(aborted := end.aborted || aborted);
          failed := !aborted;
        case Streaming(chunks, ending) =>
          end := end.(attempt := 0).Do(Opened);
          end, failed := Consume(env, end, chunks);
          failed := !end.aborted && (failed || ending == Dropped);
          if !end.aborted && !failed && ending == Aborted {
            end := end.(aborted := true);
          }
      }
      if failed {
        end := HandleFailure(env, end);
      }
      n := n + 1;
    }
  }
}
