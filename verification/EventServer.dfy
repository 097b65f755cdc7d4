/**
 The other end of the stream: the route of apps/web/app/api/runs/[runId]/events/stream/route.ts,
 which replays the store after a cursor and also pushes what is published. Each `await` is a point
 where other actions may come in between, so a replay is two actions: `List` and `Send`.
 The last section joins server, text, chunks and client.
 */
module EventServer {
  import opened Wrappers
  import opened Numbers
  import opened Sequences
  import opened EventDelivery

  const REPLAY_LIMIT := 500

  /** `pending` holds listings read from the store and not yet sent. */
  datatype Server = Server(
    log: seq<string>,
    cursor: Option<string>,
    sent: seq<string>,
    subscribed: bool,
    pending: seq<seq<string>>)

  /**
   `Publish` stores an event and tells the subscribers of this process; `Store` is another process writing the
   store.
   */
  datatype Action = Publish(id: string) | Store(id: string) | List | Send | Subscribe

  /** `eventsAfter`: an unknown cursor gives everything. */
  function EventsAfter(log: seq<string>, cursor: Option<string>): seq<string> {
    if cursor.None? || cursor.value !in log then log else log[IndexOf(log, cursor.value) + 1..]
  }

  function Limited(events: seq<string>): seq<string> {
    if |events| <= REPLAY_LIMIT + 1 then events else events[..REPLAY_LIMIT + 1]
  }

  function Act(s: Server, a: Action): Server {
    match a
    case Publish(id) =>
      var s' := s.(log := Published(s.log, id));
      if s.subscribed && s.cursor != Some(id) then s'.(sent := s.sent + [id], cursor := Some(id)) else s'
    case Store(id) => s.(log := Published(s.log, id))
    case List => s.(pending := s.pending + [Limited(EventsAfter(s.log, s.cursor))])
    case Send =>
      if s.pending == [] then s
      else
        var events, s' := s.pending[0], s.(pending := s.pending[1..]);
        if |events| > REPLAY_LIMIT || events == [] then s'
        else s'.(sent := s.sent + events, cursor := Some(events[|events| - 1]))
    case Subscribe => s.(subscribed := true)
  }

  function Serve(s: Server, actions: seq<Action>): Server
    decreases |actions|
  {
    if actions == [] then s else Serve(Act(s, actions[0]), actions[1..])
  }

  function Published(log: seq<string>, id: string): seq<string> {
    if id in log then log else log + [id]
  }

  /**
   A push is in step when every stored event that the reader lacks and that comes before the pushed
   one has been sent already. (Pushing again what the reader has is in step.)
   */
  ghost predicate PushInStep(s: Server, start: nat, next: nat, a: Action)
    requires start <= next <= |s.log|
  {
    a.Publish? && s.subscribed && s.cursor != Some(a.id) ==> IsInOrder(s, start, next, a.id)
  }

  ghost predicate IsInOrder(s: Server, start: nat, next: nat, id: string) {
    var log := Published(s.log, id);
    var i := IndexOf(log, id);
    start <= i && forall j :: next <= j < i ==> log[j] in s.sent
  }

  ghost predicate AllPushesInStep(s: Server, start: nat, next: nat, actions: seq<Action>)
    requires start <= next <= |s.log|
    decreases |actions|
  {
    actions == []
    || (PushInStep(s, start, next, actions[0]) && AllPushesInStep(Act(s, actions[0]), start, next, actions[1..]))
  }

  // ---------------------------------------------------------------- lemmas about Advance

  lemma {:induction false} AdvanceConcat(log: seq<string>, start: nat, next: nat, a: seq<string>, b: seq<string>)
    requires start <= next <= |log|
    ensures Advance(log, start, next, a + b)
         == if Advance(log, start, next, a).None? then None
           else Advance(log, start, Advance(log, start, next, a).value, b)
    decreases |a|
  {
    if a == [] {
      assert a + b == b;
    } else {
      assert (a + b)[1..] == a[1..] + b;
      if a[0] in log[start..next] {
        AdvanceConcat(log, start, next, a[1..], b);
      } else if next < |log| && a[0] == log[next] {
        AdvanceConcat(log, start, next + 1, a[1..], b);
      }
    }
  }

  lemma {:induction false} AdvanceCovers(log: seq<string>, start: nat, next: nat, ids: seq<string>, id: string)
    requires start <= next <= |log| && Advance(log, start, next, ids).Some?
    ensures id in log[start..Advance(log, start, next, ids).value] <==> id in log[start..next] || id in ids
    decreases |ids|
  {
    if ids != [] {
      var next' := if ids[0] in log[start..next] then next else next + 1;
      AdvanceCovers(log, start, next', ids[1..], id);
      assert ids == [ids[0]] + ids[1..];
      assert next' == next + 1 ==> log[start..next'] == log[start..next] + [ids[0]];
    }
  }

  lemma {:induction false} AdvanceOnGrownLog(log: seq<string>, x: string, start: nat, next: nat, ids: seq<string>)
    requires start <= next <= |log| && x !in log && forall id :: id in ids ==> id in log
    ensures Advance(log + [x], start, next, ids) == Advance(log, start, next, ids)
    decreases |ids|
  {
    if ids != [] {
      assert (log + [x])[start..next] == log[start..next];
      assert ids[0] in ids && ids[0] != x;
      if ids[0] in log[start..next] {
        AdvanceOnGrownLog(log, x, start, next, ids[1..]);
      } else if next < |log| && ids[0] == log[next] {
        AdvanceOnGrownLog(log, x, start, next + 1, ids[1..]);
      }
    }
  }

  // ---------------------------------------------------------------- what every action keeps

  ghost predicate AllIn(ids: seq<string>, log: seq<string>) {
    forall id :: id in ids ==> id in log
  }

  ghost predicate Stored(s: Server) {
    && Distinct(s.log)
    && AllIn(s.sent, s.log)
    && forall l :: l in s.pending ==> AllIn(l, s.log)
  }

  /** The cursor stands at position `at` of the log; one that the log does not hold stands at the beginning. */
  ghost predicate CursorAt(s: Server, at: nat) {
    && at <= |s.log|
    && if at == 0 then s.cursor.None? || s.cursor.value !in s.log else s.cursor == Some(s.log[at - 1])
  }

  /** The event that the cursor names is stored only now. */
  predicate CursorComesLater(s: Server, a: Action) {
    (a.Publish? || a.Store?) && a.id !in s.log && s.cursor == Some(a.id)
  }

  /** The cursor names a stored event, or one that none of the actions stores. */
  ghost predicate CursorSettled(s: Server, actions: seq<Action>) {
    s.cursor.None? || s.cursor.value in s.log
    || forall a :: a in actions && (a.Publish? || a.Store?) ==> a.id != s.cursor.value
  }

  ghost predicate IsStretch(log: seq<string>, start: nat, reached: nat, ids: seq<string>) {
    exists a: nat, b: nat :: start <= a <= reached && a <= b <= |log| && ids == log[a..b]
  }

  ghost predicate Good(s: Server, start: nat, next: nat, reached: nat, at: nat) {
    && Stored(s)
    && start <= next <= |s.log|
    && Advance(s.log, start, next, s.sent) == Some(reached)
    && CursorAt(s, at) && start <= at <= reached
    && forall l :: l in s.pending ==> IsStretch(s.log, start, reached, l)
  }

  lemma IndexIsUnique(log: seq<string>, i: nat)
    requires Distinct(log) && i < |log|
    ensures IndexOf(log, log[i]) == i
  {
  }

  lemma ActKeepsStored(s: Server, a: Action)
    requires Stored(s)
    ensures Stored(Act(s, a)) && s.log <= Act(s, a).log && s.sent <= Act(s, a).sent
  {
    if a.Send? && s.pending != [] {
      assert AllIn(s.pending[0], s.log);
    }
  }

  lemma InSlice(log: seq<string>, start: nat, past: nat, i: nat)
    requires Distinct(log) && start <= past <= |log| && i < |log|
    ensures log[i] in log[start..past] <==> start <= i < past
  {
    assert start <= i < past ==> log[start..past][i - start] == log[i];
  }

  lemma OneAdvance(log: seq<string>, start: nat, reached: nat, i: nat)
    requires Distinct(log) && start <= reached <= |log| && i < |log|
    ensures Advance(log, start, reached, [log[i]])
         == if start <= i < reached then Some(reached) else if i == reached then Some(reached + 1) else None
  {
    InSlice(log, start, reached, i);
  }

  lemma CoveredIsSent(log: seq<string>, start: nat, next: nat, sent: seq<string>, reached: nat, j: nat)
    requires Distinct(log) && start <= next <= |log| && Advance(log, start, next, sent) == Some(reached)
    requires next <= j < |log|
    ensures j < reached <==> log[j] in sent
  {
    hide Advance;
    AdvanceCovers(log, start, next, sent, log[j]);
    InSlice(log, start, reached, j);
    InSlice(log, start, next, j);
  }

  /** With log[..reached) covered, the entry at `i` keeps the stream in order iff all before it are sent. */
  lemma PushAdvancesIffInStep(s: Server, start: nat, next: nat, reached: nat, at: nat, id: string)
    requires Good(s, start, next, reached, at)
    ensures Advance(Published(s.log, id), start, next, s.sent + [id])
         == if IsInOrder(s, start, next, id)
            then Some(Max(reached, IndexOf(Published(s.log, id), id) + 1))
            else None
  {
    hide Advance, IsStretch;
    var log := Published(s.log, id);
    var i := IndexOf(log, id);
    if id !in s.log {
      AdvanceOnGrownLog(s.log, id, start, next, s.sent);
    }
    AdvanceConcat(log, start, next, s.sent, [id]);
    OneAdvance(log, start, reached, i);
    forall j | next <= j < i ensures j < reached <==> log[j] in s.sent {
      CoveredIsSent(log, start, next, s.sent, reached, j);
    }
    if i > reached {
      assert log[reached] !in s.sent;
    }
  }

  lemma StretchesStay(log: seq<string>, log': seq<string>, start: nat, reached: nat, reached': nat, ids: seq<string>)
    requires IsStretch(log, start, reached, ids) && log <= log' && reached <= reached'
    ensures IsStretch(log', start, reached', ids)
  {
    var a: nat, b: nat :| start <= a <= reached && a <= b <= |log| && ids == log[a..b];
    assert log'[a..b] == ids;
  }

  lemma PendingStays(s: Server, log: seq<string>, start: nat, reached: nat, reached': nat)
    requires forall l :: l in s.pending ==> IsStretch(s.log, start, reached, l)
    requires s.log <= log && reached <= reached'
    ensures forall l :: l in s.pending ==> IsStretch(log, start, reached', l)
  {
    forall l | l in s.pending ensures IsStretch(log, start, reached', l) {
      StretchesStay(s.log, log, start, reached, reached', l);
    }
  }

  lemma StoreKeepsGood(s: Server, id: string, start: nat, next: nat, reached: nat, at: nat)
    requires Good(s, start, next, reached, at) && !CursorComesLater(s, Store(id))
    ensures Good(Act(s, Store(id)), start, next, reached, at)
  {
    hide Advance, IsStretch;
    ActKeepsStored(s, Store(id));
    if id !in s.log {
      AdvanceOnGrownLog(s.log, id, start, next, s.sent);
    }
    PendingStays(s, Published(s.log, id), start, reached, reached);
  }

  lemma PublishKeepsGood(s: Server, id: string, start: nat, next: nat, reached: nat, at: nat)
    returns (reached': nat, at': nat)
    requires Good(s, start, next, reached, at) && PushInStep(s, start, next, Publish(id))
    requires !CursorComesLater(s, Publish(id))
    ensures Good(Act(s, Publish(id)), start, next, reached', at')
  {
    hide Advance, IsStretch;
    var log := Published(s.log, id);
    ActKeepsStored(s, Publish(id));
    if id !in s.log {
      AdvanceOnGrownLog(s.log, id, start, next, s.sent);
    }
    reached', at' := reached, at;
    if s.subscribed && s.cursor != Some(id) {
      PushAdvancesIffInStep(s, start, next, reached, at, id);
      var i := IndexOf(log, id);
      reached', at' := if i < reached then reached else i + 1, i + 1;
    }
    PendingStays(s, log, start, reached, reached');
  }

  lemma ListKeepsGood(s: Server, start: nat, next: nat, reached: nat, at: nat)
    requires Good(s, start, next, reached, at)
    ensures Good(Act(s, List), start, next, reached, at)
  {
    ActKeepsStored(s, List);
    if at > 0 {
      IndexIsUnique(s.log, at - 1);
    }
    var events := EventsAfter(s.log, s.cursor);
    assert events == s.log[at..];
    var l := Limited(events);
    assert l == s.log[at..at + |l|];
    assert IsStretch(s.log, start, reached, l);
  }

  lemma StretchAdvances(log: seq<string>, start: nat, next: nat, reached: nat, sent: seq<string>, events: seq<string>)
      returns (past: nat)
    requires start <= next <= |log| && Distinct(log)
    requires Advance(log, start, next, sent) == Some(reached) && IsStretch(log, start, reached, events) && events != []
    ensures past <= |log| && past > start && events[|events| - 1] == log[past - 1]
    ensures Advance(log, start, next, sent + events) == Some(if past <= reached then reached else past)
  {
    hide Advance;
    var a: nat, b: nat :| start <= a <= reached && a <= b <= |log| && events == log[a..b];
    AdvanceConcat(log, start, next, sent, events);
    StretchNeverSkips(log, start, reached, a, b);
    past := b;
  }

  lemma SendKeepsGood(s: Server, start: nat, next: nat, reached: nat, at: nat) returns (reached': nat, at': nat)
    requires Good(s, start, next, reached, at)
    ensures Good(Act(s, Send), start, next, reached', at')
  {
    hide Advance, IsStretch;
    reached', at' := reached, at;
    ActKeepsStored(s, Send);
    if s.pending != [] && 0 < |s.pending[0]| <= REPLAY_LIMIT {
      at' := StretchAdvances(s.log, start, next, reached, s.sent, s.pending[0]);
      reached' := if at' <= reached then reached else at';
      PendingStays(s, s.log, start, reached, reached');
    }
  }

  lemma ActKeepsGood(s: Server, a: Action, start: nat, next: nat, reached: nat, at: nat)
    returns (reached': nat, at': nat)
    requires Good(s, start, next, reached, at) && PushInStep(s, start, next, a) && !CursorComesLater(s, a)
    ensures Good(Act(s, a), start, next, reached', at')
  {
    reached', at' := reached, at;
    match a
    case Publish(id) => reached', at' := PublishKeepsGood(s, id, start, next, reached, at);
    case Store(id) => StoreKeepsGood(s, id, start, next, reached, at);
    case List => ListKeepsGood(s, start, next, reached, at);
    case Send => reached', at' := SendKeepsGood(s, start, next, reached, at);
    case Subscribe =>
  }

  lemma SettledStays(s: Server, actions: seq<Action>)
    requires actions != [] && Stored(s) && CursorSettled(s, actions)
    ensures !CursorComesLater(s, actions[0]) && CursorSettled(Act(s, actions[0]), actions[1..])
  {
    var a, s' := actions[0], Act(s, actions[0]);
    assert a in actions;
    assert forall b :: b in actions[1..] ==> b in actions;
    if a.Send? && s.pending != [] && s.pending[0] != [] {
      assert AllIn(s.pending[0], s.log);
      assert s.pending[0][|s.pending[0]| - 1] in s.pending[0];
    }
  }

  /** Once the stream has skipped ahead, nothing that follows repairs it. */
  lemma {:induction false} SkippedStays(s: Server, actions: seq<Action>, start: nat, next: nat)
    requires Stored(s) && start <= next <= |s.log| && Advance(s.log, start, next, s.sent).None?
    ensures |s.log| <= |Serve(s, actions).log|
    ensures Advance(Serve(s, actions).log, start, next, Serve(s, actions).sent).None?
    decreases |actions|
  {
    if actions != [] {
      var s' := Act(s, actions[0]);
      ActKeepsStored(s, actions[0]);
      if s'.log != s.log {
        AdvanceOnGrownLog(s.log, actions[0].id, start, next, s.sent);
      }
      assert s'.sent == s.sent + s'.sent[|s.sent|..];
      AdvanceConcat(s'.log, start, next, s.sent, s'.sent[|s.sent|..]);
      SkippedStays(s', actions[1..], start, next);
    }
  }

  /**
   A connection of the route never skips ahead exactly when every push is in step: nothing that the
   reader lacks may have been stored, without being sent, before what is pushed.
   */
  lemma {:induction false} ServerNeverSkipsIff(s: Server, actions: seq<Action>, start: nat, next: nat, reached: nat,
                                               at: nat)
    requires Good(s, start, next, reached, at) && CursorSettled(s, actions)
    ensures next <= |Serve(s, actions).log|
    ensures Advance(Serve(s, actions).log, start, next, Serve(s, actions).sent).Some?
       <==> AllPushesInStep(s, start, next, actions)
    decreases |actions|
  {
    hide Advance, CursorSettled, CursorComesLater, PushInStep, CursorAt, IsStretch;
    if actions != [] {
      var a, s' := actions[0], Act(s, actions[0]);
      ActKeepsStored(s, a);
      SettledStays(s, actions);
      if PushInStep(s, start, next, a) {
        var reached', at' := ActKeepsGood(s, a, start, next, reached, at);
        ServerNeverSkipsIff(s', actions[1..], start, next, reached', at');
      } else {
        PushOutOfStepSkips(s, a, start, next, reached, at);
        SkippedStays(s', actions[1..], start, next);
      }
    }
  }

  lemma PushOutOfStepSkips(s: Server, a: Action, start: nat, next: nat, reached: nat, at: nat)
    requires Good(s, start, next, reached, at) && !PushInStep(s, start, next, a)
    ensures Advance(Act(s, a).log, start, next, Act(s, a).sent).None?
  {
    hide Advance, IsStretch;
    PushAdvancesIffInStep(s, start, next, reached, at, a.id);
  }

  function Accepted(log: seq<string>, cursor: Option<string>): Server {
    Server(log, cursor, [], false, [])
  }

  /** Where the replay starts: past the cursor, or at the beginning when the log does not hold it. */
  function Held(log: seq<string>, cursor: Option<string>): (at: nat)
    ensures at <= |log|
  {
    if cursor.Some? && cursor.value in log then IndexOf(log, cursor.value) + 1 else 0
  }

  /** A request is accepted in good order, whether the log holds its cursor or not. */
  lemma AcceptedIsGood(log: seq<string>, cursor: Option<string>, start: nat)
    requires Distinct(log) && start <= Held(log, cursor)
    ensures Good(Accepted(log, cursor), start, Held(log, cursor), Held(log, cursor), Held(log, cursor))
  {
  }

  // ---------------------------------------------------------------- runs that skip

  lemma ServeCons(s: Server, a: Action, actions: seq<Action>)
    ensures Serve(s, [a] + actions) == Serve(Act(s, a), actions)
  {
    assert ([a] + actions)[1..] == actions;
  }

  /**
   A replay sends exactly what the store holds after the cursor, or all of it for a cursor that it does not hold,
   and moves the cursor to the last event sent; of more than 500 events it sends none.
   */
  lemma ReplaySendsTheRest(s: Server, at: nat)
    requires s.pending == [] && at <= |s.log|
    requires if s.cursor.None? || s.cursor.value !in s.log then at == 0
             else at > 0 && s.log[at - 1] == s.cursor.value && s.cursor.value !in s.log[..at - 1]
    ensures var rest, s' := s.log[at..], Act(Act(s, List), Send);
            && s'.log == s.log && s'.subscribed == s.subscribed && s'.pending == []
            && s'.sent == (if |rest| <= 500 then s.sent + rest else s.sent)
            && s'.cursor == if 0 < |rest| <= 500 then Some(rest[|rest| - 1]) else s.cursor
  {
    RestIsAfter(s.log, s.cursor, at);
    hide EventsAfter;
    var listing := Limited(s.log[at..]);
    assert [] + [listing] == [listing] && [listing][1..] == [];
  }

  lemma RestIsAfter(log: seq<string>, cursor: Option<string>, at: nat)
    requires at <= |log|
    requires if cursor.None? || cursor.value !in log then at == 0
             else at > 0 && log[at - 1] == cursor.value && cursor.value !in log[..at - 1]
    ensures EventsAfter(log, cursor) == log[at..]
  {
    if cursor.Some? && cursor.value in log {
      FirstIsIndex(log, at - 1);
    }
  }

  lemma {:induction false} FirstIsIndex(log: seq<string>, i: nat)
    requires i < |log| && log[i] !in log[..i]
    ensures IndexOf(log, log[i]) == i
  {
    if i > 0 {
      assert log[0] in log[..i];
      assert log[1..][..i - 1] == log[..i][1..];
      FirstIsIndex(log[1..], i - 1);
    }
  }

  /** An event is stored once; a subscribed connection sends it unless it is the one sent last. */
  lemma PublishPushes(s: Server, id: string)
    ensures var s' := Act(s, Publish(id));
            && s'.log == (if id in s.log then s.log else s.log + [id])
            && s'.pending == s.pending && s'.subscribed == s.subscribed
            && (if s.subscribed && s.cursor != Some(id) then s'.sent == s.sent + [id] && s'.cursor == Some(id)
                else s'.sent == s.sent && s'.cursor == s.cursor)
  {
  }

  /** The replay of a log within the limit sends all of it. */
  lemma ReplayIsSent(log: seq<string>)
    requires |log| <= 500
    ensures Act(Act(Accepted(log, None), List), Send)
         == Server(log, if log == [] then None else Some(log[|log| - 1]), log, false, [])
  {
    assert [log][1..] == [];
    assert [] + log == log;
  }

  /** The whole log was sent, then one event was missed and the next one pushed. */
  lemma MissedOneSkips(log: seq<string>, first: string, second: string)
    requires Distinct(log + [first, second])
    ensures Advance(log + [first, second], 0, 0, log + [second]).None?
  {
    hide Advance;
    var all := log + [first, second];
    assert all[0..|log|] == log;
    StretchNeverSkips(all, 0, 0, 0, |log|);
    AdvanceConcat(all, 0, 0, log, [second]);
    OneAdvance(all, 0, |log|, |log| + 1);
  }

  /** An event published between the replay and the subscription is lost when the next one is pushed. */
  lemma PublishBeforeSubscribeSkips(log: seq<string>, first: string, second: string)
    requires |log| <= 500 && Distinct(log + [first, second])
    ensures var end := Serve(Accepted(log, None), [List, Send, Publish(first), Subscribe, Publish(second)]);
            end.sent == log + [second] && Advance(end.log, 0, 0, end.sent).None?
  {
    hide Advance;
    var s0, all := Accepted(log, None), log + [first, second];
    ReplayIsSent(log);
    MissedOneSkips(log, first, second);
    NewToLog(log, first, second);
    var s2 := Act(Act(s0, List), Send);
    var s4 := Act(Act(s2, Publish(first)), Subscribe);
    assert s4 == Server(log + [first], s2.cursor, log, true, []);
    assert log + [first] + [second] == all;
    LastAction(s4, Publish(second));
    ServeFive(s0, List, Send, Publish(first), Subscribe, Publish(second));
  }

  /** An event that another process stores is lost when the next one is pushed before a poll. */
  lemma StoreElsewhereSkips(log: seq<string>, first: string, second: string)
    requires |log| <= 500 && Distinct(log + [first, second])
    ensures var end := Serve(Accepted(log, None), [List, Send, Subscribe, Store(first), Publish(second)]);
            end.sent == log + [second] && Advance(end.log, 0, 0, end.sent).None?
  {
    hide Advance;
    var s0, all := Accepted(log, None), log + [first, second];
    ReplayIsSent(log);
    MissedOneSkips(log, first, second);
    NewToLog(log, first, second);
    var s2 := Act(Act(s0, List), Send);
    var s4 := Act(Act(s2, Subscribe), Store(first));
    assert s4 == Server(log + [first], s2.cursor, log, true, []);
    assert log + [first] + [second] == all;
    LastAction(s4, Publish(second));
    ServeFive(s0, List, Send, Subscribe, Store(first), Publish(second));
  }

  lemma NewToLog(log: seq<string>, first: string, second: string)
    requires Distinct(log + [first, second])
    ensures first !in log && second !in log && first != second
  {
    var all := log + [first, second];
    assert all[|log|] == first && all[|log| + 1] == second;
    assert forall i :: 0 <= i < |log| ==> all[i] == log[i];
  }

  lemma LastAction(s: Server, a: Action)
    ensures Serve(s, [a]) == Act(s, a)
  {
    assert [a][1..] == [];
  }

  lemma ServeFive(s: Server, a: Action, b: Action, c: Action, d: Action, e: Action)
    ensures Serve(s, [a, b, c, d, e]) == Serve(Act(Act(Act(Act(s, a), b), c), d), [e])
  {
    hide Serve, Act;
    assert [a, b, c, d, e] == [a] + ([b] + ([c] + ([d] + [e])));
    ServeCons(s, a, [b] + ([c] + ([d] + [e])));
    ServeCons(Act(s, a), b, [c] + ([d] + [e]));
    ServeCons(Act(Act(s, a), b), c, [d] + [e]);
    ServeCons(Act(Act(Act(s, a), b), c), d, [e]);
  }

  /** After a replay over the limit nothing of it is sent, yet the next published event is pushed. */
  lemma OverflowSkips(log: seq<string>, id: string)
    requires |log| > 500 && Distinct(log) && id !in log
    ensures var end := Serve(Accepted(log, None), [List, Send, Subscribe, Publish(id)]);
            end.sent == [id] && Advance(end.log, 0, 0, end.sent).None?
  {
    hide Advance;
    var s0 := Accepted(log, None);
    assert Act(Act(s0, List), Send) == s0;
    var s3 := Act(s0, Subscribe);
    assert [List, Send, Subscribe, Publish(id)] == [List] + ([Send] + ([Subscribe] + [Publish(id)]));
    ServeCons(s0, List, [Send] + ([Subscribe] + [Publish(id)]));
    ServeCons(Act(s0, List), Send, [Subscribe] + [Publish(id)]);
    ServeCons(s0, Subscribe, [Publish(id)]);
    LastAction(s3, Publish(id));
    assert [] + [id] == [id];
    OneAdvance(log + [id], 0, 0, |log|);
  }

  /**
   A cursor that is stored only after the request counts as seen: the stream then starts after it, not at the
   beginning.
   */
  lemma LateCursorMovesTheStart(cursor: string, next: string)
    requires cursor != next
    ensures var end := Serve(Accepted([], Some(cursor)), [Subscribe, Publish(cursor), Publish(next)]);
            && end.log == [cursor, next] && end.sent == [next]
            && Advance(end.log, 0, 0, end.sent).None? && Advance(end.log, 1, 1, end.sent) == Some(2)
  {
    hide Advance, Serve, Accepted;
    LateCursorIsNotSent(cursor, next);
    OneAdvance([cursor, next], 0, 0, 1);
    OneAdvance([cursor, next], 1, 1, 1);
  }

  lemma LateCursorIsNotSent(cursor: string, next: string)
    requires cursor != next
    ensures var end := Serve(Accepted([], Some(cursor)), [Subscribe, Publish(cursor), Publish(next)]);
            end.log == [cursor, next] && end.sent == [next]
  {
    var s0 := Accepted([], Some(cursor));
    var s2 := Act(Act(s0, Subscribe), Publish(cursor));
    assert s2 == Server([cursor], Some(cursor), [], true, []);
    assert [Subscribe, Publish(cursor), Publish(next)] == [Subscribe] + ([Publish(cursor)] + [Publish(next)]);
    ServeCons(s0, Subscribe, [Publish(cursor)] + [Publish(next)]);
    ServeCons(Act(s0, Subscribe), Publish(cursor), [Publish(next)]);
    LastAction(s2, Publish(next));
  }
}
