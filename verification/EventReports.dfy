/**
 What each connection adds to the trace of the stream client, call by call and for every answer of the
 callbacks: a failed connection is reported and waited for, each frame costs the calls it should, and
 nothing follows an abort. The calls are read off the trace and the script alone.
 */
module EventReports {
  import opened Wrappers
  import opened Numbers
  import opened Sequences
  import opened JsString
  import opened SseFrames
  import opened EventStream
  import opened EventDelivery

  /** The wait in milliseconds after so many failures in a row. */
  function WaitMs(failures: nat): nat {
    if failures <= 1 then 1000
    else if failures == 2 then 2000
    else if failures == 3 then 4000
    else if failures == 4 then 8000
    else 10000
  }

  lemma BackoffIsWaitMs(n: nat)
    requires n >= 1
    ensures Backoff(n) == WaitMs(n)
  {
    assert Pow2(5) == 2 * Pow2(4) == 4 * Pow2(3) == 8 * Pow2(2) == 16 * Pow2(1) == 32 * Pow2(0);
  }

  function Asked(initial: Option<string>, trace: seq<Call>): Call {
    var cursor := Cursor(initial, trace);
    Fetch(if cursor == Some("") then None else cursor)
  }

  /** The calls up to a report of the next failure and its wait; a callback that throws ends them. */
  function Reported(env: Env, initial: Option<string>, trace: seq<Call>): seq<Call> {
    var failures := Failures(trace) + 1;
    var told := trace + [OnError];
    var announced := told + [OnReconnect(failures, Cursor(initial, trace))];
    if env.reply(told) == Throws then told
    else if env.reply(announced) == Throws then announced
    else announced + [Sleep(WaitMs(failures))]
  }

  /** Whether the client goes on after that report: no callback threw or aborted, and no abort cut the wait. */
  predicate GoesOn(env: Env, initial: Option<string>, trace: seq<Call>) {
    var all := Reported(env, initial, trace);
    |all| == |trace| + 3 && forall n :: |trace| < n <= |all| ==> env.reply(all[..n]) != Aborts
  }

  datatype Outcome = Read | Failed | Halted
  datatype Hearing = Hearing(trace: seq<Call>, outcome: Outcome)

  /** The call that a frame asks for, if any: reports for errors, and events that have not been handed out. */
  function CallFor(env: Env, trace: seq<Call>, f: SseFrame): Option<Call> {
    if f.data == None || f.data == Some("") then None
    else if f.event == "run.error" then Some(OnError)
    else if f.event == "run.event" && env.decode(f.data.value).Envelope? then
      var id := env.decode(f.data.value).event_id;
      if id in Events(trace) then None else Some(OnEvent(id))
    else None
  }

  predicate IsMalformed(env: Env, f: SseFrame) {
    f.event == "run.event" && f.data.Some? && f.data.value != "" && env.decode(f.data.value).Malformed?
  }

  /** The calls for the frames of one body, until one is malformed or a callback throws or aborts. */
  function Heard(env: Env, trace: seq<Call>, frames: seq<SseFrame>): Hearing
    decreases |frames|
  {
    if frames == [] then Hearing(trace, Read)
    else if IsMalformed(env, frames[0]) then Hearing(trace, Failed)
    else
      match CallFor(env, trace, frames[0])
      case None => Heard(env, trace, frames[1..])
      case Some(call) =>
        match env.reply(trace + [call])
        case Throws => Hearing(trace + [call], Failed)
        case Aborts => Hearing(trace + [call], Halted)
        case Fine => Heard(env, trace + [call], frames[1..])
  }

  // ---------------------------------------------------------------- one failure, one body

  lemma RecoverReports(env: Env, initial: Option<string>, s: Client)
    requires Inv(initial, s) && !s.Stopped()
    ensures Recover(env, s).trace == Reported(env, initial, s.trace)
    ensures !Recover(env, s).Stopped() <==> GoesOn(env, initial, s.trace)
  {
    hide Fits, Events, Cursor, Failures, Backoff;
    BackoffIsWaitMs(s.attempt + 1);
    var told := s.trace + [OnError];
    var announced := told + [OnReconnect(s.attempt + 1, s.after)];
    var slept := announced + [Sleep(WaitMs(s.attempt + 1))];
    assert slept[..|s.trace| + 1] == told && slept[..|s.trace| + 2] == announced && slept[..|s.trace| + 3] == slept;
    assert told[..|s.trace| + 1] == told && announced[..|s.trace| + 1] == told;
  }

  lemma FrameIsHeard(env: Env, initial: Option<string>, s: Client, f: SseFrame)
    requires Inv(initial, s) && !s.aborted
    ensures var step, call := HandleFrame(env, s, f), CallFor(env, s.trace, f);
            && step.client.attempt == s.attempt
            && (call.None? ==> step.client == s && (step.threw <==> IsMalformed(env, f)))
            && (call.Some? ==>
                  && step.client.trace == s.trace + [call.value]
                  && (step.threw <==> env.reply(step.client.trace) == Throws)
                  && (step.client.aborted <==> env.reply(step.client.trace) == Aborts))
  {
    hide Fits, Failures, Events;
  }

  lemma {:induction false} FramesAreHeard(env: Env, initial: Option<string>, s: Client, frames: seq<SseFrame>)
    requires Inv(initial, s) && !s.aborted
    ensures var step, heard := HandleFrames(env, s, frames), Heard(env, s.trace, frames);
            && step.client.trace == heard.trace && step.client.attempt == s.attempt
            && (step.threw <==> heard.outcome == Failed)
            && (step.client.aborted <==> heard.outcome == Halted)
    decreases |frames|
  {
    hide HandleFrame, Inv, CallFor;
    if frames != [] {
      FrameIsHeard(env, initial, s, frames[0]);
      MalformedAsksNothing(env, s.trace, frames[0]);
      HandleFrameKeeps(env, initial, s, frames[0]);
      var step := HandleFrame(env, s, frames[0]);
      if !step.threw && !step.client.aborted {
        FramesAreHeard(env, initial, step.client, frames[1..]);
      }
    }
  }

  lemma MalformedAsksNothing(env: Env, trace: seq<Call>, f: SseFrame)
    ensures IsMalformed(env, f) ==> CallFor(env, trace, f).None?
  {
  }

  /** How many of the calls are reports to `onError`. */
  function Reports(trace: seq<Call>): nat {
    if trace == [] then 0 else Reports(trace[..|trace| - 1]) + if trace[|trace| - 1].OnError? then 1 else 0
  }

  /** How many of the frames are error frames with data. */
  function ErrorFrames(frames: seq<SseFrame>): nat {
    if frames == [] then 0
    else
      (if frames[0].event == "run.error" && frames[0].data.Some? && frames[0].data.value != "" then 1 else 0)
      + ErrorFrames(frames[1..])
  }

  /** With callbacks that return, every error frame with data is reported exactly once. */
  lemma {:induction false} EveryErrorIsReported(env: Env, trace: seq<Call>, frames: seq<SseFrame>)
    requires forall t :: env.reply(t) == Fine
    requires forall f :: f in frames ==> !IsMalformed(env, f)
    ensures var heard := Heard(env, trace, frames);
            heard.outcome == Read && Reports(heard.trace) == Reports(trace) + ErrorFrames(frames)
    decreases |frames|
  {
    hide Events, IsMalformed;
    if frames != [] {
      var call := CallFor(env, trace, frames[0]);
      assert frames[0] in frames;
      if call.Some? {
        assert (trace + [call.value])[..|trace|] == trace;
        EveryErrorIsReported(env, trace + [call.value], frames[1..]);
      } else {
        EveryErrorIsReported(env, trace, frames[1..]);
      }
    }
  }

  // ---------------------------------------------------------------- one connection more

  lemma {:induction false} RunSnoc(env: Env, s: Client, script: seq<Connection>, c: Connection)
    ensures var before := Run(env, s, script);
            Run(env, s, script + [c]) == if before.Stopped() then before else Connect(env, before, c)
    decreases |script|
  {
    hide Connect;
    if script == [] || s.Stopped() {
      assert (script + [c])[0] == if script == [] then c else script[0];
      assert script == [] ==> (script + [c])[1..] == [];
    } else {
      assert (script + [c])[0] == script[0] && (script + [c])[1..] == script[1..] + [c];
      RunSnoc(env, Connect(env, s, script[0]), script[1..], c);
    }
  }

  /** Once the client has stopped, no connection is opened and nothing else is called. */
  lemma {:induction false} NothingAfterStop(env: Env, s: Client, script: seq<Connection>, more: seq<Connection>)
    requires Run(env, s, script).Stopped()
    ensures Run(env, s, script + more) == Run(env, s, script)
    decreases |more|
  {
    if more == [] {
      assert script + more == script;
    } else {
      assert script + more == (script + [more[0]]) + more[1..];
      RunSnoc(env, s, script, more[0]);
      NothingAfterStop(env, s, script + [more[0]], more[1..]);
    }
  }

  lemma StillGood(env: Env, initial: Option<string>, script: seq<Connection>)
    requires !Run(env, Start(initial), script).Stopped()
    ensures Inv(initial, Run(env, Start(initial), script))
  {
    RunKeeps(env, initial, Start(initial), script);
  }

  lemma FetchIsAsked(initial: Option<string>, s: Client)
    requires Inv(initial, s)
    ensures var asked := s.Do(Fetch(Sent(s.after)));
            && asked.trace == s.trace + [Asked(initial, s.trace)]
            && Inv(initial, asked) && Cursor(initial, asked.trace) == Cursor(initial, s.trace)
            && Failures(asked.trace) == Failures(s.trace)
  {
    PlainCallKeeps(initial, s, Fetch(Sent(s.after)));
    TraceSnoc(initial, s.trace, Fetch(Sent(s.after)));
  }

  /** A connection that is refused is asked for, reported and waited for; a refusal by an abort ends the run. */
  lemma RefusalIsReported(env: Env, initial: Option<string>, script: seq<Connection>)
    requires !Run(env, Start(initial), script).Stopped()
    ensures var before := Run(env, Start(initial), script).trace;
            var asked := before + [Asked(initial, before)];
            var after, aborted := Run(env, Start(initial), script + [Refused(false)]),
                                  Run(env, Start(initial), script + [Refused(true)]);
            && after.trace == Reported(env, initial, asked)
            && (!after.Stopped() <==> GoesOn(env, initial, asked))
            && aborted.trace == asked && aborted.Stopped()
  {
    hide Run, Reported, GoesOn, Inv, Cursor, Asked, Recover;
    var s := Run(env, Start(initial), script);
    RunSnoc(env, Start(initial), script, Refused(false));
    RunSnoc(env, Start(initial), script, Refused(true));
    StillGood(env, initial, script);
    FetchIsAsked(initial, s);
    RecoverReports(env, initial, s.Do(Fetch(Sent(s.after))));
  }

  /** The same with callbacks that return: four calls, with the wait in numbers. */
  lemma RefusalAddsFourCalls(env: Env, initial: Option<string>, script: seq<Connection>)
    requires !Run(env, Start(initial), script).Stopped() && forall trace :: env.reply(trace) == Fine
    ensures var before := Run(env, Start(initial), script).trace;
            var after := Run(env, Start(initial), script + [Refused(false)]);
            var cursor, failures := Cursor(initial, before), Failures(before) + 1;
            && !after.Stopped()
            && after.trace
               == before + [Fetch(if cursor == Some("") then None else cursor), OnError,
                            OnReconnect(failures, cursor),
                            Sleep(if failures == 1 then 1000 else if failures == 2 then 2000
                                  else if failures == 3 then 4000 else if failures == 4 then 8000 else 10000)]
  {
    var before := Run(env, Start(initial), script).trace;
    RefusalIsReported(env, initial, script);
    StillGood(env, initial, script);
    FetchIsAsked(initial, Run(env, Start(initial), script));
    hide Run, Cursor, Failures, Inv;
  }

  /** A body adds its opening and the calls for its frames; a failure while reading is the first in a row. */
  lemma BodyIsHeard(env: Env, initial: Option<string>, script: seq<Connection>, chunks: seq<string>, ending: Ending)
    requires !Run(env, Start(initial), script).Stopped()
    ensures var before := Run(env, Start(initial), script).trace;
            var after := Run(env, Start(initial), script + [Streaming(chunks, ending)]);
            var heard := Heard(env, before + [Asked(initial, before), Opened], FramesOf(Concat(chunks)));
            var fails := heard.outcome == Failed || (heard.outcome == Read && ending == Dropped);
            && Failures(heard.trace) == 0
            && after.trace == (if fails then Reported(env, initial, heard.trace) else heard.trace)
            && (!after.Stopped() <==>
                if fails then GoesOn(env, initial, heard.trace) else heard.outcome == Read && ending == Closed)
  {
    hide Run, Reported, GoesOn, Inv, Cursor, Asked, Recover, FramesOf, HandleFrames, Heard, Failures;
    var s := Run(env, Start(initial), script);
    RunSnoc(env, Start(initial), script, Streaming(chunks, ending));
    StillGood(env, initial, script);
    FetchIsAsked(initial, s);
    OpeningKeeps(initial, s);
    var open := s.Do(Fetch(Sent(s.after))).(attempt := 0).Do(Opened);
    assert open.trace == s.trace + [Asked(initial, s.trace), Opened];
    var frames := FramesOf(Concat(chunks));
    FramesAreHeard(env, initial, open, frames);
    HandleFramesKeeps(env, initial, open, frames);
    var client := HandleFrames(env, open, frames).client;
    assert Inv(initial, client) && client.attempt == 0;
    AttemptIsFailures(initial, client);
    if !client.aborted {
      RecoverReports(env, initial, client);
    }
  }

  lemma AttemptIsFailures(initial: Option<string>, s: Client)
    requires Inv(initial, s)
    ensures s.attempt == Failures(s.trace) && !s.escaped
  {
  }

  // ---------------------------------------------------------------- whole runs

  /** The trace of `n` refusals in a row. */
  function Refusals(initial: Option<string>, n: nat): seq<Call> {
    if n == 0 then []
    else
      Refusals(initial, n - 1)
      + [Fetch(if initial == Some("") then None else initial), OnError, OnReconnect(n, initial), Sleep(WaitMs(n))]
  }

  lemma {:induction false} RefusalsHaveNoEvents(initial: Option<string>, n: nat)
    ensures Cursor(initial, Refusals(initial, n)) == initial && Events(Refusals(initial, n)) == []
    ensures Failures(Refusals(initial, n)) == n
  {
    if n > 0 {
      RefusalsHaveNoEvents(initial, n - 1);
      var t := Refusals(initial, n - 1);
      var fetch := Fetch(if initial == Some("") then None else initial);
      TraceSnoc(initial, t, fetch);
      TraceSnoc(initial, t + [fetch], OnError);
      TraceSnoc(initial, t + [fetch] + [OnError], OnReconnect(n, initial));
      TraceSnoc(initial, t + [fetch] + [OnError] + [OnReconnect(n, initial)], Sleep(WaitMs(n)));
      assert Refusals(initial, n)
          == t + [fetch] + [OnError] + [OnReconnect(n, initial)] + [Sleep(WaitMs(n))];
    }
  }

  /** A server that stays down is asked again after 1, 2, 4, 8, 10, 10, ... seconds, and reported each time. */
  lemma {:induction false} ServerDown(env: Env, initial: Option<string>, n: nat)
    requires forall trace :: env.reply(trace) == Fine
    ensures var end := Run(env, Start(initial), seq(n, _ => Refused(false)));
            end.trace == Refusals(initial, n) && !end.Stopped()
  {
    if n > 0 {
      ServerDown(env, initial, n - 1);
      var script := seq(n - 1, _ => Refused(false));
      assert seq(n, _ => Refused(false)) == script + [Refused(false)];
      RefusalsHaveNoEvents(initial, n - 1);
      RefusalAddsFourCalls(env, initial, script);
    }
  }

  /** A request has been made that has neither opened nor been followed by a wait. */
  predicate Due(trace: seq<Call>) {
    trace != []
    && (trace[|trace| - 1].Fetch?
        || (!trace[|trace| - 1].Opened? && !trace[|trace| - 1].Sleep? && Due(trace[..|trace| - 1])))
  }

  predicate Spaced(trace: seq<Call>) {
    trace == []
    || (Spaced(trace[..|trace| - 1]) && (trace[|trace| - 1].Fetch? ==> !Due(trace[..|trace| - 1])))
  }

  lemma SpacedSnoc(trace: seq<Call>, call: Call)
    ensures Spaced(trace + [call]) <==> Spaced(trace) && (call.Fetch? ==> !Due(trace))
    ensures Due(trace + [call]) <==> call.Fetch? || (!call.Opened? && !call.Sleep? && Due(trace))
  {
    assert (trace + [call])[..|trace|] == trace;
  }

  lemma {:induction false} DueUntilOpenedOrSlept(trace: seq<Call>, i: nat, j: nat)
    requires i < j <= |trace| && trace[i].Fetch?
    requires forall k :: i < k < j ==> !trace[k].Opened? && !trace[k].Sleep?
    ensures Due(trace[..j])
    decreases j
  {
    if i + 1 < j {
      DueUntilOpenedOrSlept(trace, i, j - 1);
      assert trace[..j] == trace[..j - 1] + [trace[j - 1]];
      SpacedSnoc(trace[..j - 1], trace[j - 1]);
    } else {
      assert trace[..j] == trace[..i] + [trace[i]];
      SpacedSnoc(trace[..i], trace[i]);
    }
  }

  lemma {:induction false} SpacedAt(trace: seq<Call>, j: nat)
    requires Spaced(trace) && j < |trace| && trace[j].Fetch?
    ensures !Due(trace[..j])
    decreases |trace|
  {
    var init := trace[..|trace| - 1];
    if j < |init| {
      SpacedAt(init, j);
      assert init[..j] == trace[..j];
    }
  }

  lemma {:induction false} HeardIsSpaced(env: Env, trace: seq<Call>, frames: seq<SseFrame>)
    requires Spaced(trace) && !Due(trace)
    ensures var heard := Heard(env, trace, frames).trace; Spaced(heard) && !Due(heard)
    decreases |frames|
  {
    hide CallFor, IsMalformed, Spaced, Due;
    if frames != [] && !IsMalformed(env, frames[0]) {
      var call := CallFor(env, trace, frames[0]);
      if call.None? {
        HeardIsSpaced(env, trace, frames[1..]);
      } else {
        CallIsAReport(env, trace, frames[0]);
        SpacedSnoc(trace, call.value);
        HeardIsSpaced(env, trace + [call.value], frames[1..]);
      }
    }
  }

  lemma CallIsAReport(env: Env, trace: seq<Call>, f: SseFrame)
    ensures var call := CallFor(env, trace, f); call.Some? ==> call.value.OnError? || call.value.OnEvent?
  {
  }

  lemma ReportedIsSpaced(env: Env, initial: Option<string>, trace: seq<Call>)
    requires Spaced(trace)
    ensures Spaced(Reported(env, initial, trace))
    ensures GoesOn(env, initial, trace) ==> !Due(Reported(env, initial, trace))
  {
    hide Spaced, Due, Failures, Cursor;
    var failures := Failures(trace) + 1;
    var told := trace + [OnError];
    var announced := told + [OnReconnect(failures, Cursor(initial, trace))];
    SpacedSnoc(trace, OnError);
    SpacedSnoc(told, OnReconnect(failures, Cursor(initial, trace)));
    SpacedSnoc(announced, Sleep(WaitMs(failures)));
  }

  lemma {:induction false} RunIsSpaced(env: Env, initial: Option<string>, script: seq<Connection>)
    ensures var end := Run(env, Start(initial), script); Spaced(end.trace) && (!end.Stopped() ==> !Due(end.trace))
    decreases |script|
  {
    hide Spaced, Due, Connect, Heard, Reported, GoesOn, Asked, FramesOf, Failures, Cursor;
    if script == [] {
      NothingIsSpaced();
    } else {
      var init, c := script[..|script| - 1], script[|script| - 1];
      assert script == init + [c];
      RunIsSpaced(env, initial, init);
      RunSnoc(env, Start(initial), init, c);
      if !Run(env, Start(initial), init).Stopped() {
        ConnectionIsSpaced(env, initial, init, c);
      }
    }
  }

  lemma NothingIsSpaced()
    ensures Spaced([]) && !Due([])
  {
  }

  lemma ConnectionIsSpaced(env: Env, initial: Option<string>, script: seq<Connection>, c: Connection)
    requires var before := Run(env, Start(initial), script);
             !before.Stopped() && Spaced(before.trace) && !Due(before.trace)
    ensures var end := Run(env, Start(initial), script + [c]);
            Spaced(end.trace) && (!end.Stopped() ==> !Due(end.trace))
  {
    hide Spaced, Due, Run, Heard, Reported, GoesOn, FramesOf, Failures, Cursor;
    var before := Run(env, Start(initial), script).trace;
    var asked := before + [Asked(initial, before)];
    SpacedSnoc(before, Asked(initial, before));
    match c
    case Refused(_) =>
      RefusalIsReported(env, initial, script);
      ReportedIsSpaced(env, initial, asked);
    case Streaming(chunks, ending) =>
      BodyIsHeard(env, initial, script, chunks, ending);
      SpacedSnoc(asked, Opened);
      assert before + [Asked(initial, before), Opened] == asked + [Opened];
      HeardIsSpaced(env, asked + [Opened], FramesOf(Concat(chunks)));
      ReportedIsSpaced(env, initial, Heard(env, asked + [Opened], FramesOf(Concat(chunks))).trace);
  }

  /** No tight loop: in every run, between two requests a connection opened or the client waited. */
  lemma RequestsAreSpaced(env: Env, initial: Option<string>, script: seq<Connection>, i: nat, j: nat)
    requires var trace := Run(env, Start(initial), script).trace;
             i < j < |trace| && trace[i].Fetch? && trace[j].Fetch?
    ensures var trace := Run(env, Start(initial), script).trace;
            exists k :: i < k < j && (trace[k].Opened? || trace[k].Sleep?)
  {
    var trace := Run(env, Start(initial), script).trace;
    RunIsSpaced(env, initial, script);
    SpacedAt(trace, j);
    if forall k :: i < k < j ==> !trace[k].Opened? && !trace[k].Sleep? {
      DueUntilOpenedOrSlept(trace, i, j);
    }
  }
}
