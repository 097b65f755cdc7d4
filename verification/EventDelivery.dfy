/**
 What every run of the stream client keeps: the cursor names the last event handed out, no event is
 handed out twice, waits stay bounded and do not shrink, and, against a server that never skips
 ahead, the events handed out are a contiguous slice of the server's log.
 */
module EventDelivery {
  import opened Wrappers
  import opened Numbers
  import opened Sequences
  import opened JsString
  import opened SseFrames
  import opened EventStream

  // ---------------------------------------------------------------- reading a trace

  /** The events handed to `onEvent`, in order. */
  function Events(trace: seq<Call>): seq<string> {
    if trace == [] then []
    else
      var last := trace[|trace| - 1];
      Events(trace[..|trace| - 1]) + if last.OnEvent? then [last.event_id] else []
  }

  /** The last event handed out, or the cursor the caller started from. */
  function Cursor(initial: Option<string>, trace: seq<Call>): Option<string> {
    var events := Events(trace);
    if events == [] then initial else Some(events[|events| - 1])
  }

  /** Failures since the last connection that opened. */
  function Failures(trace: seq<Call>): nat {
    if trace == [] || trace[|trace| - 1].Opened? then 0
    else Failures(trace[..|trace| - 1]) + if trace[|trace| - 1].OnReconnect? then 1 else 0
  }

  /** What one call must be, after the calls before it. */
  predicate CallFits(initial: Option<string>, before: seq<Call>, call: Call) {
    match call
    case Fetch(after) => after == Sent(Cursor(initial, before))
    case OnEvent(id) => id !in Events(before)
    case OnReconnect(attempt, cursor) => attempt == Failures(before) + 1 && cursor == Cursor(initial, before)
    case Sleep(ms) => Failures(before) > 0 && ms == Backoff(Failures(before))
    case _ => true
  }

  predicate Fits(initial: Option<string>, trace: seq<Call>) {
    trace == []
    || (Fits(initial, trace[..|trace| - 1]) && CallFits(initial, trace[..|trace| - 1], trace[|trace| - 1]))
  }

  lemma TraceSnoc(initial: Option<string>, trace: seq<Call>, call: Call)
    ensures Events(trace + [call]) == Events(trace) + if call.OnEvent? then [call.event_id] else []
    ensures Failures(trace + [call]) == if call.Opened? then 0 else Failures(trace) + if call.OnReconnect? then 1 else 0
    ensures Fits(initial, trace + [call]) <==> Fits(initial, trace) && CallFits(initial, trace, call)
  {
    assert (trace + [call])[..|trace|] == trace;
  }

  ghost predicate Inv(initial: Option<string>, s: Client) {
    && !s.escaped
    && Fits(initial, s.trace)
    && s.after == Cursor(initial, s.trace)
    && s.attempt == Failures(s.trace)
    && s.seen == set id | id in Events(s.trace)
  }

  // ---------------------------------------------------------------- every run keeps it

  lemma PlainCallKeeps(initial: Option<string>, s: Client, call: Call)
    requires Inv(initial, s)
    requires call == Fetch(Sent(s.after)) || call == OnError || (s.attempt > 0 && call == Sleep(Backoff(s.attempt)))
    ensures Inv(initial, s.Do(call)) && Events(s.Do(call).trace) == Events(s.trace)
  {
    TraceSnoc(initial, s.trace, call);
  }

  lemma OpenKeeps(initial: Option<string>, s: Client)
    requires Inv(initial, s)
    ensures Inv(initial, s.(attempt := 0).Do(Opened)) && Events(s.Do(Opened).trace) == Events(s.trace)
  {
    TraceSnoc(initial, s.trace, Opened);
  }

  lemma ReconnectKeeps(initial: Option<string>, s: Client)
    requires Inv(initial, s)
    ensures var s' := s.(attempt := s.attempt + 1).Do(OnReconnect(s.attempt + 1, s.after));
            Inv(initial, s') && Events(s'.trace) == Events(s.trace)
  {
    TraceSnoc(initial, s.trace, OnReconnect(s.attempt + 1, s.after));
  }

  lemma EventKeeps(initial: Option<string>, s: Client, id: string)
    requires Inv(initial, s) && id !in s.seen
    ensures var s' := s.(seen := s.seen + {id}, after := Some(id)).Do(OnEvent(id));
            Inv(initial, s') && Events(s'.trace) == Events(s.trace) + [id]
  {
    TraceSnoc(initial, s.trace, OnEvent(id));
  }

  predicate CarriesEvent(env: Env, f: SseFrame) {
    f.data.Some? && f.data.value != "" && f.event == "run.event" && env.decode(f.data.value).Envelope?
  }

  function IdOf(env: Env, f: SseFrame): string
    requires CarriesEvent(env, f)
  {
    env.decode(f.data.value).event_id
  }

  /** A frame that carries no event costs at most a report to `onError`. */
  lemma OtherFrame(env: Env, initial: Option<string>, s: Client, f: SseFrame)
    requires Inv(initial, s) && !CarriesEvent(env, f)
    ensures var client := HandleFrame(env, s, f).client;
            Inv(initial, client) && Events(client.trace) == Events(s.trace)
  {
    PlainCallKeeps(initial, s, OnError);
    hide Fits, Failures, Events, Cursor;
  }

  /** A frame that carries an event hands it out, unless it has been seen. */
  lemma EventFrame(env: Env, initial: Option<string>, s: Client, f: SseFrame)
    requires Inv(initial, s) && CarriesEvent(env, f)
    ensures var client, id := HandleFrame(env, s, f).client, IdOf(env, f);
            && Inv(initial, client)
            && (if id in s.seen then client == s else Events(client.trace) == Events(s.trace) + [id])
  {
    if IdOf(env, f) !in s.seen {
      EventKeeps(initial, s, IdOf(env, f));
    }
    hide Fits, Failures, Events, Cursor;
  }

  lemma HandleFrameKeeps(env: Env, initial: Option<string>, s: Client, f: SseFrame)
    requires Inv(initial, s)
    ensures Inv(initial, HandleFrame(env, s, f).client)
    ensures Events(s.trace) <= Events(HandleFrame(env, s, f).client.trace)
  {
    hide Inv, HandleFrame, CarriesEvent;
    if CarriesEvent(env, f) {
      EventFrame(env, initial, s, f);
    } else {
      OtherFrame(env, initial, s, f);
    }
  }

  lemma {:induction false} HandleFramesKeeps(env: Env, initial: Option<string>, s: Client, frames: seq<SseFrame>)
    requires Inv(initial, s)
    ensures Inv(initial, HandleFrames(env, s, frames).client)
    decreases |frames|
  {
    if frames != [] && !s.aborted {
      HandleFrameKeeps(env, initial, s, frames[0]);
      var step := HandleFrame(env, s, frames[0]);
      if !step.threw {
        HandleFramesKeeps(env, initial, step.client, frames[1..]);
      }
    }
  }

  /** The three ways a failure is handled: `onError` throws, `onReconnect` throws, or the client waits. */
  lemma RecoverCases(env: Env, s: Client)
    requires !s.escaped
    ensures var r, n := Recover(env, s), s.attempt + 1;
            var told := s.Do(OnError);
            var announced := told.(attempt := n).Do(OnReconnect(n, s.after));
            && r.after == s.after && r.seen == s.seen
            && (r.escaped ==> r.trace == told.trace || r.trace == announced.trace)
            && (!r.escaped ==> r.attempt == n && r.trace == announced.Do(Sleep(Backoff(n))).trace)
  {
  }

  ghost predicate Recorded(initial: Option<string>, s: Client) {
    && Fits(initial, s.trace)
    && s.after == Cursor(initial, s.trace)
    && (s.escaped || Inv(initial, s))
  }

  lemma RecoverKeeps(env: Env, initial: Option<string>, s: Client)
    requires Inv(initial, s)
    ensures Recorded(initial, Recover(env, s))
    ensures Events(Recover(env, s).trace) == Events(s.trace)
  {
    hide Fits, Events, Failures;
    RecoverCases(env, s);
    PlainCallKeeps(initial, s, OnError);
    ReconnectKeeps(initial, s.Do(OnError));
    var announced := s.Do(OnError).(attempt := s.attempt + 1).Do(OnReconnect(s.attempt + 1, s.after));
    PlainCallKeeps(initial, announced, Sleep(Backoff(s.attempt + 1)));
    assert Inv(initial, announced.Do(Sleep(Backoff(s.attempt + 1))));
  }

  lemma OpeningKeeps(initial: Option<string>, s: Client)
    requires Inv(initial, s)
    ensures var asked := s.Do(Fetch(Sent(s.after)));
            var open := asked.(attempt := 0).Do(Opened);
            && Inv(initial, asked) && Events(asked.trace) == Events(s.trace)
            && Inv(initial, open) && Events(open.trace) == Events(s.trace)
  {
    PlainCallKeeps(initial, s, Fetch(Sent(s.after)));
    OpenKeeps(initial, s.Do(Fetch(Sent(s.after))));
  }

  lemma ConnectKeeps(env: Env, initial: Option<string>, s: Client, c: Connection)
    requires Inv(initial, s)
    ensures Recorded(initial, Connect(env, s, c))
  {
    hide Fits, Events, Failures;
    OpeningKeeps(initial, s);
    var asked := s.Do(Fetch(Sent(s.after)));
    match c
    case Refused(_) => RecoverKeeps(env, initial, asked);
    case Streaming(chunks, _) =>
      var open := asked.(attempt := 0).Do(Opened);
      HandleFramesKeeps(env, initial, open, FramesOf(Concat(chunks)));
      RecoverKeeps(env, initial, HandleFrames(env, open, FramesOf(Concat(chunks))).client);
  }

  lemma {:induction false} RunKeeps(env: Env, initial: Option<string>, s: Client, script: seq<Connection>)
    requires Inv(initial, s)
    ensures Recorded(initial, Run(env, s, script))
    decreases |script|
  {
    if script != [] && !s.Stopped() {
      ConnectKeeps(env, initial, s, script[0]);
      var next := Connect(env, s, script[0]);
      if !next.Stopped() {
        RunKeeps(env, initial, next, script[1..]);
      }
    }
  }

  lemma {:induction false} FitsAt(initial: Option<string>, trace: seq<Call>, i: nat)
    requires Fits(initial, trace) && i < |trace|
    ensures CallFits(initial, trace[..i], trace[i])
    decreases |trace|
  {
    var init := trace[..|trace| - 1];
    if i < |init| {
      FitsAt(initial, init, i);
      assert init[..i] == trace[..i];
    }
  }

  /**
   Whatever the network sends and whatever the callbacks do, also when the handler throws: the
   cursor, every request and every reconnect report name the last event handed out; reports count, and
   waits follow, the failures since a connection last opened.
   */
  lemma CursorNamesLastEvent(env: Env, initial: Option<string>, script: seq<Connection>, i: nat)
    requires i < |Run(env, Start(initial), script).trace|
    ensures var end := Run(env, Start(initial), script);
            && end.after == Cursor(initial, end.trace)
            && (end.trace[i].Fetch? ==>
                  var cursor := Cursor(initial, end.trace[..i]);
                  end.trace[i].after == if cursor == Some("") then None else cursor)
            && (end.trace[i].OnReconnect? ==>
                  && end.trace[i].cursor == Cursor(initial, end.trace[..i])
                  && end.trace[i].attempt == Failures(end.trace[..i]) + 1)
            && (end.trace[i].Sleep? ==> end.trace[i].ms == Backoff(Failures(end.trace[..i])))
  {
    RunKeeps(env, initial, Start(initial), script);
    FitsAt(initial, Run(env, Start(initial), script).trace, i);
  }

  lemma {:induction false} FitsMeansDistinct(initial: Option<string>, trace: seq<Call>)
    requires Fits(initial, trace)
    ensures Distinct(Events(trace))
  {
    if trace != [] {
      FitsMeansDistinct(initial, trace[..|trace| - 1]);
    }
  }

  /** No event is handed out twice, against any server at all. */
  lemma NoEventTwice(env: Env, initial: Option<string>, script: seq<Connection>)
    ensures Distinct(Events(Run(env, Start(initial), script).trace))
  {
    RunKeeps(env, initial, Start(initial), script);
    FitsMeansDistinct(initial, Run(env, Start(initial), script).trace);
  }

  // ---------------------------------------------------------------- waiting

  lemma BackoffGrows(m: nat, n: nat)
    requires 1 <= m <= n
    ensures 1000 <= Backoff(m) <= Backoff(n) <= 10000
  {
    Pow2Grows(1, Min(5, m));
    Pow2Grows(Min(5, m), Min(5, n));
    assert Pow2(1) == 2 * Pow2(0);
  }

  lemma {:induction false} FailuresGrow(trace: seq<Call>, i: nat, j: nat)
    requires i <= j <= |trace| && forall k :: i <= k < j ==> !trace[k].Opened?
    ensures Failures(trace[..i]) <= Failures(trace[..j])
    decreases j
  {
    if i < j {
      FailuresGrow(trace, i, j - 1);
      assert trace[..j][..j - 1] == trace[..j - 1];
    }
  }

  /** In every run, waits stay within [1000, 10000] ms and never shrink until a connection opens again. */
  lemma WaitsNeverShrink(env: Env, initial: Option<string>, script: seq<Connection>, i: nat, j: nat)
    requires var trace := Run(env, Start(initial), script).trace;
             && i <= j < |trace| && trace[i].Sleep? && trace[j].Sleep?
             && forall k :: i <= k < j ==> !trace[k].Opened?
    ensures var trace := Run(env, Start(initial), script).trace;
            1000 <= trace[i].ms <= trace[j].ms <= 10000
  {
    var trace := Run(env, Start(initial), script).trace;
    RunKeeps(env, initial, Start(initial), script);
    FitsAt(initial, trace, i);
    FitsAt(initial, trace, j);
    FailuresGrow(trace, i, j);
    BackoffGrows(Failures(trace[..i]), Failures(trace[..j]));
  }

  // ---------------------------------------------------------------- slices of the server's log

  /** The events in the frames of one connection, up to the first that does not parse. */
  function EventIds(env: Env, frames: seq<SseFrame>): seq<string>
    decreases |frames|
  {
    if frames == [] then []
    else
      var f := frames[0];
      if f.data == None || f.data == Some("") || f.event != "run.event" then EventIds(env, frames[1..])
      else
        match env.decode(f.data.value)
        case Malformed => []
        case Envelope(id) => [id] + EventIds(env, frames[1..])
  }

  /**
   With `log[start..next)` handed out, how far streamed events take the reader, if each one is
   either handed out already or the next entry of the log. None when one skips ahead.
   */
  function Advance(log: seq<string>, start: nat, next: nat, ids: seq<string>): (r: Option<nat>)
    requires start <= next <= |log|
    ensures r.Some? ==> next <= r.value <= |log|
    decreases |ids|
  {
    if ids == [] then Some(next)
    else if ids[0] in log[start..next] then Advance(log, start, next, ids[1..])
    else if next < |log| && ids[0] == log[next] then Advance(log, start, next + 1, ids[1..])
    else None
  }

  /** Handing out exactly log[start..next). */
  ghost predicate HandsOut(s: Client, log: seq<string>, start: nat, next: nat) {
    start <= next <= |log| && Events(s.trace) == log[start..next]
  }

  lemma OneFrame(env: Env, initial: Option<string>, s: Client, f: SseFrame, log: seq<string>, start: nat, next: nat)
    requires Inv(initial, s) && HandsOut(s, log, start, next) && Distinct(log) && CarriesEvent(env, f)
    ensures var id, s' := IdOf(env, f), HandleFrame(env, s, f).client;
            if id in log[start..next] then s' == s
            else && Events(s'.trace) == log[start..next] + [id]
                 && (next < |log| && id == log[next] ==> HandsOut(s', log, start, next + 1))
  {
    hide HandleFrame, Fits, Failures, Cursor, Distinct;
    EventFrame(env, initial, s, f);
    assert IdOf(env, f) in s.seen <==> IdOf(env, f) in log[start..next];
    hide Inv, Events;
    assert next < |log| ==> log[start..next + 1] == log[start..next] + [log[next]];
  }

  /**
   One connection, any replies: against a stream that does not skip ahead, the client hands out a
   longer slice; and all of it, when nothing throws or aborts.
   */
  lemma {:induction false} FramesExtendSlice(env: Env, initial: Option<string>, s: Client, frames: seq<SseFrame>,
                                             log: seq<string>, start: nat, next: nat)
      returns (reached: nat)
    requires Inv(initial, s) && HandsOut(s, log, start, next) && Distinct(log)
    requires Advance(log, start, next, EventIds(env, frames)).Some?
    ensures var step := HandleFrames(env, s, frames);
            && HandsOut(step.client, log, start, reached)
            && next <= reached <= Advance(log, start, next, EventIds(env, frames)).value
            && (!step.threw && !step.client.aborted ==>
                  reached == Advance(log, start, next, EventIds(env, frames)).value)
    decreases |frames|
  {
    hide Inv, Advance, HandleFrame, EventIds;
    reached := next;
    if frames != [] && !s.aborted {
      HandleFrameKeeps(env, initial, s, frames[0]);
      reached := FrameExtendsSlice(env, initial, s, frames, log, start, next);
      if !HandleFrame(env, s, frames[0]).threw {
        var client := HandleFrame(env, s, frames[0]).client;
        reached := FramesExtendSlice(env, initial, client, frames[1..], log, start, reached);
      }
    } else {
      AdvanceNowhere(env, log, start, next);
    }
  }

  lemma AdvanceNowhere(env: Env, log: seq<string>, start: nat, next: nat)
    requires start <= next <= |log|
    ensures Advance(log, start, next, EventIds(env, [])) == Some(next)
  {
  }

  /** The first of the frames: what is left to advance over, unless it throws. */
  lemma FrameExtendsSlice(env: Env, initial: Option<string>, s: Client, frames: seq<SseFrame>,
                          log: seq<string>, start: nat, next: nat)
      returns (reached: nat)
    requires Inv(initial, s) && HandsOut(s, log, start, next) && Distinct(log) && frames != []
    requires Advance(log, start, next, EventIds(env, frames)).Some?
    ensures var step, all := HandleFrame(env, s, frames[0]), Advance(log, start, next, EventIds(env, frames));
            && HandsOut(step.client, log, start, reached)
            && next <= reached <= all.value
            && (!step.threw ==> Advance(log, start, reached, EventIds(env, frames[1..])) == all)
  {
    hide Inv, HandleFrame, EventIds;
    reached := next;
    var f, rest := frames[0], EventIds(env, frames[1..]);
    EventIdsStep(env, s, frames);
    if !CarriesEvent(env, f) {
      OtherFrame(env, initial, s, f);
      assert [] + rest == rest;
    } else {
      OneFrame(env, initial, s, f, log, start, next);
      assert ([IdOf(env, f)] + rest)[1..] == rest;
      if IdOf(env, f) !in log[start..next] {
        reached := next + 1;
      }
    }
  }

  lemma {:induction false} FramesOnlyAppend(env: Env, initial: Option<string>, s: Client, frames: seq<SseFrame>)
    requires Inv(initial, s)
    ensures Events(s.trace) <= Events(HandleFrames(env, s, frames).client.trace)
    decreases |frames|
  {
    hide Inv, Events, HandleFrame;
    if frames != [] && !s.aborted {
      HandleFrameKeeps(env, initial, s, frames[0]);
      if !HandleFrame(env, s, frames[0]).threw {
        FramesOnlyAppend(env, initial, HandleFrame(env, s, frames[0]).client, frames[1..]);
      }
    }
  }

  /** A stream that skips ahead makes an undisturbed client hand out something that is no slice. */
  lemma {:induction false} SkippingBreaksSlice(env: Env, initial: Option<string>, s: Client, frames: seq<SseFrame>,
                                               log: seq<string>, start: nat, next: nat)
    requires Inv(initial, s) && HandsOut(s, log, start, next) && Distinct(log)
    requires Advance(log, start, next, EventIds(env, frames)).None?
    requires var step := HandleFrames(env, s, frames); !step.threw && !step.client.aborted
    ensures !(Events(HandleFrames(env, s, frames).client.trace) <= log[start..])
    decreases |frames|
  {
    hide Inv, Advance, HandleFrame, EventIds;
    AdvanceNowhere(env, log, start, next);
    var step := HandleFrame(env, s, frames[0]);
    HandleFrameKeeps(env, initial, s, frames[0]);
    var broken, next' := FrameSkips(env, initial, s, frames, log, start, next);
    if broken {
      FramesOnlyAppend(env, initial, step.client, frames[1..]);
    } else {
      SkippingBreaksSlice(env, initial, step.client, frames[1..], log, start, next');
    }
  }

  /** The first of frames that skip ahead: it breaks the slice, or the others do. */
  lemma FrameSkips(env: Env, initial: Option<string>, s: Client, frames: seq<SseFrame>, log: seq<string>, start: nat,
                   next: nat)
      returns (broken: bool, next': nat)
    requires Inv(initial, s) && HandsOut(s, log, start, next) && Distinct(log) && frames != []
    requires Advance(log, start, next, EventIds(env, frames)).None? && !HandleFrame(env, s, frames[0]).threw
    ensures var client := HandleFrame(env, s, frames[0]).client;
            if broken then !(Events(client.trace) <= log[start..])
            else HandsOut(client, log, start, next') && Advance(log, start, next', EventIds(env, frames[1..])).None?
  {
    hide Inv, HandleFrame, EventIds;
    var f, client := frames[0], HandleFrame(env, s, frames[0]).client;
    broken, next' := false, next;
    EventIdsStep(env, s, frames);
    var rest := EventIds(env, frames[1..]);
    if !CarriesEvent(env, f) {
      assert [] + rest == rest;
      OtherFrame(env, initial, s, f);
    } else {
      OneFrame(env, initial, s, f, log, start, next);
      var id := IdOf(env, f);
      assert ([id] + rest)[1..] == rest;
      if id !in log[start..next] {
        next' := next + 1;
        broken := next == |log| || id != log[next];
        var handed := Events(client.trace);
        assert handed[|handed| - 1] == id && |handed| == next - start + 1;
      }
    }
  }

  lemma EventIdsStep(env: Env, s: Client, frames: seq<SseFrame>)
    requires frames != []
    ensures CarriesEvent(env, frames[0]) ==>
              EventIds(env, frames) == [IdOf(env, frames[0])] + EventIds(env, frames[1..])
    ensures !CarriesEvent(env, frames[0]) && !HandleFrame(env, s, frames[0]).threw ==>
              EventIds(env, frames) == EventIds(env, frames[1..])
  {
  }

  /** For a connection in which nothing throws or aborts, slices are kept exactly by streams that never skip ahead. */
  lemma SliceIffNoSkip(env: Env, initial: Option<string>, s: Client, frames: seq<SseFrame>,
                       log: seq<string>, start: nat, next: nat)
    requires Inv(initial, s) && HandsOut(s, log, start, next) && Distinct(log)
    requires var step := HandleFrames(env, s, frames); !step.threw && !step.client.aborted
    ensures (exists reached: nat :: HandsOut(HandleFrames(env, s, frames).client, log, start, reached))
       <==> Advance(log, start, next, EventIds(env, frames)).Some?
  {
    if Advance(log, start, next, EventIds(env, frames)).Some? {
      var reached := FramesExtendSlice(env, initial, s, frames, log, start, next);
    } else {
      SkippingBreaksSlice(env, initial, s, frames, log, start, next);
      assert forall reached: nat :: start <= reached <= |log| ==> log[start..reached] <= log[start..];
    }
  }

  // ---------------------------------------------------------------- whole runs

  function IndexOf(log: seq<string>, id: string): (i: nat)
    requires id in log
    ensures i < |log| && log[i] == id
  {
    if log[0] == id then 0 else 1 + IndexOf(log[1..], id)
  }

  /** Where a request that names `after` resumes: past that entry, or at the start for any other cursor. */
  function Position(log: seq<string>, start: nat, after: Option<string>): (p: nat)
    requires start <= |log|
    ensures start <= p <= |log|
  {
    if after.Some? && after.value in log[start..] then start + IndexOf(log[start..], after.value) + 1 else start
  }

  /** The server's side: what it streams never skips ahead of the cursor it was asked to resume after. */
  ghost predicate NeverSkips(env: Env, log: seq<string>, start: nat, after: Option<string>, c: Connection)
    requires start <= |log|
  {
    c.Streaming? ==>
      Advance(log, start, Position(log, start, after), EventIds(env, FramesOf(Concat(c.chunks)))).Some?
  }

  ghost predicate Honest(env: Env, log: seq<string>, start: nat, s: Client, script: seq<Connection>)
    requires start <= |log|
    decreases |script|
  {
    script == [] || s.Stopped()
    || (NeverSkips(env, log, start, Sent(s.after), script[0])
        && Honest(env, log, start, Connect(env, s, script[0]), script[1..]))
  }

  /** A log as the store keeps it, and a start that the caller's own cursor does not lie beyond. */
  ghost predicate LogFrom(log: seq<string>, start: nat, initial: Option<string>) {
    && Distinct(log)
    && "" !in log
    && start <= |log|
    && (initial.Some? ==> initial.value !in log[start..])
  }

  lemma CursorIsNext(initial: Option<string>, s: Client, log: seq<string>, start: nat, next: nat)
    requires Inv(initial, s) && HandsOut(s, log, start, next) && LogFrom(log, start, initial)
    ensures Position(log, start, Sent(s.after)) == next
  {
    AfterIs(initial, s, log, start, next);
    hide Inv, HandsOut, IndexOf;
    if next > start {
      assert log[next - 1] == log[start..][next - 1 - start] && log[next - 1] != "";
    }
  }

  /** The cursor of a client that has been handed log[start..next). */
  lemma AfterIs(initial: Option<string>, s: Client, log: seq<string>, start: nat, next: nat)
    requires Inv(initial, s) && HandsOut(s, log, start, next)
    ensures start <= next <= |log| && s.after == if next == start then initial else Some(log[next - 1])
  {
    hide Fits, Failures, Events;
    assert Events(s.trace) == log[start..next];
  }

  lemma RecoverHandsOut(env: Env, initial: Option<string>, s: Client, log: seq<string>, start: nat, next: nat)
    requires Inv(initial, s) && HandsOut(s, log, start, next)
    ensures HandsOut(Recover(env, s), log, start, next)
  {
    hide Inv, Recover;
    RecoverKeeps(env, initial, s);
  }

  /** A connection that opens and in which nothing throws or aborts before its body ends. */
  predicate Undisturbed(env: Env, s: Client, c: Connection) {
    c.Streaming?
    && var step := HandleFrames(env, s.Do(Fetch(Sent(s.after))).(attempt := 0).Do(Opened), FramesOf(Concat(c.chunks)));
    !step.threw && !step.client.aborted
  }

  /** One connection: the slice grows, and by everything that was streamed when nothing disturbs it. */
  lemma ConnectExtendsSlice(env: Env, initial: Option<string>, s: Client, c: Connection,
                            log: seq<string>, start: nat, next: nat)
      returns (reached: nat)
    requires Inv(initial, s) && HandsOut(s, log, start, next) && LogFrom(log, start, initial)
    requires NeverSkips(env, log, start, Sent(s.after), c)
    ensures HandsOut(Connect(env, s, c), log, start, reached) && next <= reached
    ensures c.Refused? ==> reached == next
    ensures c.Streaming? ==>
              var read := Advance(log, start, next, EventIds(env, FramesOf(Concat(c.chunks))));
              read.Some? && reached <= read.value
    ensures Undisturbed(env, s, c) ==>
        Some(reached) == Advance(log, start, next, EventIds(env, FramesOf(Concat(c.chunks))))
  {
    assert Distinct(log);
    hide Inv, Events, Advance, EventIds, FramesOf, HandleFrames, LogFrom, Recover, Distinct;
    CursorIsNext(initial, s, log, start, next);
    OpeningKeeps(initial, s);
    var asked := s.Do(Fetch(Sent(s.after)));
    match c
    case Refused(_) =>
      RecoverHandsOut(env, initial, asked, log, start, next);
      reached := next;
    case Streaming(chunks, ending) =>
      var frames := FramesOf(Concat(chunks));
      var open := asked.(attempt := 0).Do(Opened);
      reached := FramesExtendSlice(env, initial, open, frames, log, start, next);
      HandleFramesKeeps(env, initial, open, frames);
      var step := HandleFrames(env, open, frames);
      RecoverHandsOut(env, initial, step.client, log, start, reached);
  }

  lemma {:induction false} RunExtendsSlice(env: Env, initial: Option<string>, s: Client, script: seq<Connection>,
                                           log: seq<string>, start: nat, next: nat)
      returns (reached: nat)
    requires Inv(initial, s) && HandsOut(s, log, start, next) && LogFrom(log, start, initial)
    requires Honest(env, log, start, s, script)
    ensures HandsOut(Run(env, s, script), log, start, reached) && next <= reached
    decreases |script|
  {
    hide Fits, Events, Failures;
    reached := next;
    if script != [] && !s.Stopped() {
      reached := ConnectExtendsSlice(env, initial, s, script[0], log, start, next);
      ConnectKeeps(env, initial, s, script[0]);
      var s' := Connect(env, s, script[0]);
      if !s'.Stopped() {
        reached := RunExtendsSlice(env, initial, s', script[1..], log, start, reached);
      }
    }
  }

  /**
   Over every run of drops, refusals, malformed frames, replays, reconnects and throwing callbacks,
   against a server that never skips ahead: the events handed out are exactly log[start..reached).
   */
  lemma DeliversContiguousSlice(env: Env, initial: Option<string>, script: seq<Connection>, log: seq<string>,
                                start: nat)
    requires LogFrom(log, start, initial) && Honest(env, log, start, Start(initial), script)
    ensures exists reached: nat :: HandsOut(Run(env, Start(initial), script), log, start, reached)
  {
    var reached := RunExtendsSlice(env, initial, Start(initial), script, log, start, start);
  }

  /** Streaming a contiguous stretch that starts no later than the entry after the cursor is enough. */
  lemma {:induction false} StretchNeverSkips(log: seq<string>, start: nat, next: nat, first: nat, past: nat)
    requires Distinct(log) && start <= first <= next <= |log| && first <= past <= |log|
    ensures Advance(log, start, next, log[first..past]) == Some(if past <= next then next else past)
    decreases |log| - first
  {
    if first < past {
      assert log[first..past][1..] == log[first + 1..past];
      if first < next {
        assert log[first] == log[start..next][first - start];
        StretchNeverSkips(log, start, next, first + 1, past);
      } else {
        StretchNeverSkips(log, start, next + 1, first + 1, past);
      }
    }
  }

  lemma {:induction false} AdvanceOnPrefix(log: seq<string>, start: nat, next: nat, ids: seq<string>, more: seq<string>)
    requires start <= next <= |log| && Advance(log, start, next, ids + more).Some?
    ensures Advance(log, start, next, ids).Some?
    ensures Advance(log, start, next, ids).value <= Advance(log, start, next, ids + more).value
    decreases |ids|
  {
    if ids == [] {
      assert ids + more == more;
    } else {
      assert (ids + more)[1..] == ids[1..] + more;
      if ids[0] in log[start..next] {
        AdvanceOnPrefix(log, start, next, ids[1..], more);
      } else {
        AdvanceOnPrefix(log, start, next + 1, ids[1..], more);
      }
    }
  }
}
