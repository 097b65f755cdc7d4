/**
 Server, text, chunks and client together: what the route sends, printed as text, cut into chunks and
 broken off anywhere, reaches the client as a stream that never skips ahead.
 */
module EventPipeline {
  import opened Wrappers
  import opened Sequences
  import opened JsString
  import opened SseFrames
  import opened SseFields
  import opened SsePrinting
  import opened EventStream
  import opened EventDelivery
  import opened EventServer

  /** What the route writes: a retry hint, comments, events and error reports. */
  datatype Item = Retry | Heartbeat(stamp: string) | Event(id: string) | Failure(json: string)

  function ItemBlock(encode: string -> string, item: Item): string {
    match item
    case Retry => Field("retry", "2000")
    case Heartbeat(stamp) => ": heartbeat " + stamp
    case Event(id) => Block(SseFrame("run.event", Some(encode(id)), Some(id)))
    case Failure(json) => Block(SseFrame("run.error", Some(json), None))
  }

  function ItemBlocks(encode: string -> string, items: seq<Item>): seq<string> {
    if items == [] then [] else [ItemBlock(encode, items[0])] + ItemBlocks(encode, items[1..])
  }

  function ItemIds(items: seq<Item>): seq<string> {
    if items == [] then []
    else (if items[0].Event? then [items[0].id] else []) + ItemIds(items[1..])
  }

  /** Ids and stamps stay on one line, and the client's `JSON.parse` undoes the server's `JSON.stringify`. */
  ghost predicate Sendable(env: Env, encode: string -> string, item: Item) {
    match item
    case Retry => true
    case Heartbeat(stamp) => Lacks(stamp, '\n')
    case Event(id) => id != "" && Lacks(id, '\n') && encode(id) != "" && env.decode(encode(id)) == Envelope(id)
    case Failure(_) => true
  }

  lemma OneLineIsSolid(line: string)
    requires Lacks(line, '\n')
    ensures Solid(line) && Split(line, "\n") == [line]
  {
    forall i | 0 <= i < |line| ensures !OccursAt(line + BLANK_LINE, BLANK_LINE, i) {
      PairIsBlankLine(line + BLANK_LINE, i);
      assert (line + BLANK_LINE)[i] == line[i];
    }
    PairIsBlankLine(line + BLANK_LINE, |line|);
    FindIs(line + BLANK_LINE, BLANK_LINE, |line|);
    SplitUndoesJoin([line], '\n');
  }

  /** A frame, if any, that the client can take: no run event whose data does not parse. */
  ghost predicate Readable(env: Env, f: Option<SseFrame>) {
    f.Some? && f.value.event == "run.event" && f.value.data.Some? && f.value.data.value != ""
    ==> env.decode(f.value.data.value).Envelope?
  }

  lemma RetryIsRead()
    ensures ParseFrame(Field("retry", "2000")).Some? ==> ParseFrame(Field("retry", "2000")).value.data == None
  {
    OneLineIsSolid(Field("retry", "2000"));
    ValuesOne(Field("retry", "2000"), "data");
    PrintedFieldIsRead("retry", "2000", "data");
  }

  lemma ItemIsRead(env: Env, encode: string -> string, item: Item)
    requires Sendable(env, encode, item)
    ensures Solid(ItemBlock(encode, item)) && Readable(env, ParseFrame(ItemBlock(encode, item)))
    ensures EventIds(env, OneOrNone(ParseFrame(ItemBlock(encode, item)))) == if item.Event? then [item.id] else []
  {
    hide Find, Values, Trim;
    match item
    case Retry =>
      OneLineIsSolid(Field("retry", "2000"));
      RetryIsRead();
    case Heartbeat(stamp) =>
      OneLineIsSolid(": heartbeat " + stamp);
    case Event(id) =>
      PrintedBlockIsSolid(SseFrame("run.event", Some(encode(id)), Some(id)));
      BlockIsRead(SseFrame("run.event", Some(encode(id)), Some(id)));
    case Failure(json) =>
      PrintedBlockIsSolid(SseFrame("run.error", Some(json), None));
      BlockIsRead(SseFrame("run.error", Some(json), None));
  }

  /** The frames of what the route writes: comments hold none, and a retry hint is a message without data. */
  function ItemFrames(encode: string -> string, items: seq<Item>): seq<SseFrame> {
    if items == [] then []
    else
      (match items[0]
       case Retry => [SseFrame("message", None, None)]
       case Heartbeat(_) => []
       case Event(id) => [SseFrame("run.event", Some(encode(id)), Some(id))]
       case Failure(json) => [SseFrame("run.error", Some(json), None)])
      + ItemFrames(encode, items[1..])
  }

  lemma HeartbeatIsNoFrame(stamp: string)
    requires Lacks(stamp, '\n')
    ensures ParseFrame(": heartbeat " + stamp) == None
  {
    OneLineIsSolid(": heartbeat " + stamp);
    NoFrameIff(": heartbeat " + stamp);
  }

  lemma RetryIsMessage()
    ensures ParseFrame(Field("retry", "2000")) == Some(SseFrame("message", None, None))
  {
    hide Find, Split, ValueIn;
    var line := Field("retry", "2000");
    OneLineIsSolid(line);
    ValuesOne(line, "data");
    ValuesOne(line, "id");
    ValuesOne(line, "event");
    PrintedFieldIsRead("retry", "2000", "data");
    PrintedFieldIsRead("retry", "2000", "id");
    PrintedFieldIsRead("retry", "2000", "event");
    NoFrameIff(line);
    assert line[0] == 'r' && line in [line];
  }

  lemma ItemIsFrame(env: Env, encode: string -> string, item: Item)
    requires Sendable(env, encode, item)
    ensures OneOrNone(ParseFrame(ItemBlock(encode, item))) == ItemFrames(encode, [item])
  {
    hide ParseFrame, Block;
    assert [item][1..] == [];
    match item
    case Retry => RetryIsMessage();
    case Heartbeat(stamp) => HeartbeatIsNoFrame(stamp);
    case Event(id) => BlockIsRead(SseFrame("run.event", Some(encode(id)), Some(id)));
    case Failure(json) => BlockIsRead(SseFrame("run.error", Some(json), None));
  }

  lemma {:induction false} ItemsAreFrames(env: Env, encode: string -> string, items: seq<Item>)
    requires forall item :: item in items ==> Sendable(env, encode, item)
    ensures Parsed(ItemBlocks(encode, items)) == ItemFrames(encode, items)
  {
    hide ParseFrame, ItemBlock, Sendable;
    if items != [] {
      var block, blocks := ItemBlock(encode, items[0]), ItemBlocks(encode, items[1..]);
      ItemIsFrame(env, encode, items[0]);
      ItemsAreFrames(env, encode, items[1..]);
      ParsedSnoc([], block);
      assert [] + [block] == [block] && Parsed([]) + OneOrNone(ParseFrame(block)) == OneOrNone(ParseFrame(block));
      ParsedConcat([block], blocks);
      assert [items[0]][1..] == [];
    }
  }

  /** What the client reads of a served text in any chunks: its frames, or the first of them when it breaks off. */
  lemma ClientReadsFrames(env: Env, encode: string -> string, items: seq<Item>, chunks: seq<string>, lost: string)
    requires forall item :: item in items ==> Sendable(env, encode, item)
    requires Concat(chunks) + lost == StreamText(ItemBlocks(encode, items))
    ensures FramesOf(Concat(chunks)) <= ItemFrames(encode, items)
    ensures lost == "" ==> FramesOf(Concat(chunks)) == ItemFrames(encode, items)
  {
    hide Parsed, StreamText, Sendable, Concat, ItemBlocks, Finished, ItemFrames;
    CutStreamYieldsPrefix(Concat(chunks), lost);
    ItemsAreRead(env, encode, items);
    ItemsAreFrames(env, encode, items);
    SolidBlocksAreFound(ItemBlocks(encode, items));
    assert lost == "" ==> Concat(chunks) + lost == Concat(chunks);
  }

  /** Cutting frames off the end cuts event ids off the end. */
  lemma {:induction false} EventIdsOfPrefix(env: Env, a: seq<SseFrame>, b: seq<SseFrame>)
    ensures EventIds(env, a) <= EventIds(env, a + b)
    decreases |a|
  {
    if a != [] {
      assert (a + b)[1..] == a[1..] + b;
      EventIdsOfPrefix(env, a[1..], b);
    }
  }

  lemma OneFrameThenMore(env: Env, first: Option<SseFrame>, rest: seq<SseFrame>)
    requires Readable(env, first)
    ensures EventIds(env, OneOrNone(first) + rest) == EventIds(env, OneOrNone(first)) + EventIds(env, rest)
  {
    if first.Some? {
      assert (OneOrNone(first) + rest)[1..] == rest;
    } else {
      assert OneOrNone(first) + rest == rest;
    }
  }

  lemma {:induction false} ItemsAreRead(env: Env, encode: string -> string, items: seq<Item>)
    requires forall item :: item in items ==> Sendable(env, encode, item)
    ensures forall b :: b in ItemBlocks(encode, items) ==> Solid(b)
    ensures EventIds(env, Parsed(ItemBlocks(encode, items))) == ItemIds(items)
  {
    if items != [] {
      var block, blocks := ItemBlock(encode, items[0]), ItemBlocks(encode, items[1..]);
      ItemIsRead(env, encode, items[0]);
      ItemsAreRead(env, encode, items[1..]);
      ParsedSnoc([], block);
      assert [] + [block] == [block] && Parsed([]) + OneOrNone(ParseFrame(block)) == OneOrNone(ParseFrame(block));
      ParsedConcat([block], blocks);
      OneFrameThenMore(env, ParseFrame(block), Parsed(blocks));
    }
  }

  /**
   What the client reads of a served text that is cut into chunks anywhere and breaks off anywhere:
   the first of the events the server wrote, in order.
   */
  lemma ClientReadsPrefix(env: Env, encode: string -> string, items: seq<Item>, chunks: seq<string>, lost: string)
    requires forall item :: item in items ==> Sendable(env, encode, item)
    requires Concat(chunks) + lost == StreamText(ItemBlocks(encode, items))
    ensures EventIds(env, FramesOf(Concat(chunks))) <= ItemIds(items)
    ensures lost == "" ==> EventIds(env, FramesOf(Concat(chunks))) == ItemIds(items)
  {
    hide Parsed, EventIds, StreamText, ItemIds, Sendable, Concat, ItemBlocks, Finished;
    var text := Concat(chunks);
    CutStreamYieldsPrefix(text, lost);
    ItemsAreRead(env, encode, items);
    SolidBlocksAreFound(ItemBlocks(encode, items));
    assert FramesOf(text + lost) == Parsed(ItemBlocks(encode, items));
    var all := FramesOf(text + lost);
    assert all == FramesOf(text) + all[|FramesOf(text)|..];
    EventIdsOfPrefix(env, FramesOf(text), all[|FramesOf(text)|..]);
    assert lost == "" ==> text + lost == text;
  }

  lemma {:induction false} AdvanceOnLongerLog(log: seq<string>, longer: seq<string>, start: nat, next: nat,
                                              ids: seq<string>)
    requires start <= next <= |log| && log <= longer && Distinct(longer) && forall id :: id in ids ==> id in log
    ensures Advance(longer, start, next, ids) == Advance(log, start, next, ids)
    decreases |longer|
  {
    if |log| < |longer| {
      var shorter, x := longer[..|longer| - 1], longer[|longer| - 1];
      assert longer == shorter + [x];
      AdvanceOnLongerLog(log, shorter, start, next, ids);
      AdvanceOnGrownLog(shorter, x, start, next, ids);
    } else {
      assert log == longer;
    }
  }

  lemma {:induction false} ServeKeepsStored(s: Server, actions: seq<Action>)
    requires Stored(s)
    ensures Stored(Serve(s, actions)) && s.log <= Serve(s, actions).log
    decreases |actions|
  {
    if actions != [] {
      ActKeepsStored(s, actions[0]);
      ServeKeepsStored(Act(s, actions[0]), actions[1..]);
    }
  }

  lemma {:induction false} WhatIsStoredStays(s: Server, actions: seq<Action>, id: string)
    requires exists a :: a in actions && (a.Publish? || a.Store?) && a.id == id
    ensures id in Serve(s, actions).log
    decreases |actions|
  {
    var a :| a in actions && (a.Publish? || a.Store?) && a.id == id;
    var s' := Act(s, actions[0]);
    if a == actions[0] {
      LogOnlyGrows(s', actions[1..], id);
    } else {
      assert a in actions[1..];
      WhatIsStoredStays(s', actions[1..], id);
    }
  }

  lemma {:induction false} LogOnlyGrows(s: Server, actions: seq<Action>, id: string)
    requires id in s.log
    ensures id in Serve(s, actions).log
    decreases |actions|
  {
    if actions != [] {
      LogOnlyGrows(Act(s, actions[0]), actions[1..], id);
    }
  }

  // ---------------------------------------------------------------- one connection of the route

  /**
   A connection of the route: the log when it is accepted, what happens in its process and in the store, what
   it writes, and how much of that reaches the client in which chunks.
   */
  datatype Session =
    | Down(aborted: bool)
    | Up(log: seq<string>, actions: seq<Action>, items: seq<Item>, chunks: seq<string>, lost: string, ending: Ending)

  function ConnectionOf(c: Session): Connection {
    match c
    case Down(aborted) => Refused(aborted)
    case Up(_, _, _, chunks, _, ending) => Streaming(chunks, ending)
  }

  /** The server at the end of a connection that was asked to resume after `cursor`. */
  function EndOf(c: Session, cursor: Option<string>): Server
    requires c.Up?
  {
    Serve(Accepted(c.log, cursor), c.actions)
  }

  /** The connection writes what its server sends, and the client gets the start of that text. */
  ghost predicate Writes(env: Env, encode: string -> string, c: Session, cursor: Option<string>)
    requires c.Up?
  {
    && (forall item :: item in c.items ==> Sendable(env, encode, item))
    && ItemIds(c.items) == EndOf(c, cursor).sent
    && Concat(c.chunks) + c.lost == StreamText(ItemBlocks(encode, c.items))
  }

  /** The cursor is held when the connection is accepted, or is no event of the log at all. */
  ghost predicate CursorKnown(log: seq<string>, all: seq<string>, cursor: Option<string>) {
    cursor.None? || cursor.value in log || cursor.value !in all
  }

  lemma KnownIsSettled(c: Session, all: seq<string>, cursor: Option<string>)
    requires c.Up? && EndOf(c, cursor).log <= all && CursorKnown(c.log, all, cursor)
    ensures CursorSettled(Accepted(c.log, cursor), c.actions)
  {
    if cursor.Some? && cursor.value !in all {
      forall a | a in c.actions && (a.Publish? || a.Store?) ensures a.id != cursor.value {
        WhatIsStoredStays(Accepted(c.log, cursor), c.actions, a.id);
      }
    }
  }

  /** How far the whole of what a connection sends takes a reader, measured in the final log. */
  lemma SentAdvances(c: Session, all: seq<string>, cursor: Option<string>, start: nat)
    requires c.Up? && Distinct(all) && c.log <= all && EndOf(c, cursor).log <= all
    requires CursorKnown(c.log, all, cursor) && start <= Held(c.log, cursor)
    ensures var end, next := EndOf(c, cursor), Held(c.log, cursor);
            && next <= |c.log| <= |end.log|
            && Advance(all, start, next, end.sent) == Advance(end.log, start, next, end.sent)
            && (Advance(all, start, next, end.sent).Some? <==>
                AllPushesInStep(Accepted(c.log, cursor), start, next, c.actions))
  {
    hide Advance, Serve;
    var accepted, next, end := Accepted(c.log, cursor), Held(c.log, cursor), EndOf(c, cursor);
    PrefixIsDistinct(c.log, all);
    AcceptedIsGood(c.log, cursor, start);
    KnownIsSettled(c, all, cursor);
    ServerNeverSkipsIff(accepted, c.actions, start, next, next, next);
    ServeKeepsStored(accepted, c.actions);
    AdvanceOnLongerLog(end.log, all, start, next, end.sent);
  }

  lemma PrefixIsDistinct(log: seq<string>, all: seq<string>)
    requires Distinct(all) && log <= all
    ensures Distinct(log)
  {
  }

  /**
   The route with its pushes in step keeps the server's side of the contract, whatever the cuts, whether the
   log holds the cursor or not.
   */
  lemma RouteInStepNeverSkips(env: Env, encode: string -> string, c: Session, all: seq<string>,
                              cursor: Option<string>, start: nat)
    requires c.Up? && Distinct(all) && c.log <= all && EndOf(c, cursor).log <= all && Writes(env, encode, c, cursor)
    requires CursorKnown(c.log, all, cursor) && start <= Held(c.log, cursor)
    requires AllPushesInStep(Accepted(c.log, cursor), start, Held(c.log, cursor), c.actions)
    ensures var read := Advance(all, start, Held(c.log, cursor), EventIds(env, FramesOf(Concat(c.chunks))));
            read.Some? && read.value <= |EndOf(c, cursor).log|
  {
    hide Advance, EventIds, FramesOf, StreamText, ItemBlocks, Sendable, Serve, ItemIds;
    SentAdvances(c, all, cursor, start);
    ClientReadsPrefix(env, encode, c.items, c.chunks, c.lost);
    var ids := EventIds(env, FramesOf(Concat(c.chunks)));
    assert ItemIds(c.items) == ids + ItemIds(c.items)[|ids|..];
    AdvanceOnPrefix(all, start, Held(c.log, cursor), ids, ItemIds(c.items)[|ids|..]);
  }

  /**
   Client and route together, for one connection that arrives complete and in which nothing throws or aborts:
   what the client has been handed stays a slice of the log if and only if every push of the route was in step.
   */
  lemma SliceIffPushesInStep(env: Env, encode: string -> string, initial: Option<string>, s: Client, c: Session,
                             all: seq<string>, start: nat, next: nat)
    requires Inv(initial, s) && HandsOut(s, all, start, next) && Distinct(all)
    requires c.Up? && c.log <= all && EndOf(c, Sent(s.after)).log <= all && Writes(env, encode, c, Sent(s.after))
    requires c.lost == ""
    requires CursorKnown(c.log, all, Sent(s.after)) && next == Held(c.log, Sent(s.after))
    requires var step := HandleFrames(env, s, FramesOf(Concat(c.chunks))); !step.threw && !step.client.aborted
    ensures (var client := HandleFrames(env, s, FramesOf(Concat(c.chunks))).client;
             exists reached: nat :: HandsOut(client, all, start, reached))
       <==> AllPushesInStep(Accepted(c.log, Sent(s.after)), start, next, c.actions)
  {
    hide Advance, EventIds, FramesOf, StreamText, ItemBlocks, Sendable, Serve, ItemIds, Inv, HandleFrames;
    SentAdvances(c, all, Sent(s.after), start);
    ClientReadsPrefix(env, encode, c.items, c.chunks, c.lost);
    SliceIffNoSkip(env, initial, s, FramesOf(Concat(c.chunks)), all, start, next);
  }

  // ---------------------------------------------------------------- client and route over whole runs

  function Connections(sessions: seq<Session>): seq<Connection> {
    if sessions == [] then [] else [ConnectionOf(sessions[0])] + Connections(sessions[1..])
  }

  /**
   Every connection that the client opens, until it stops, is one of the route, asked to resume where the
   client stands: over a log that holds at least `grown` and stays within `all`, and with its pushes in step.
   */
  ghost predicate ServedByRoute(env: Env, encode: string -> string, all: seq<string>, start: nat, grown: seq<string>,
                                s: Client, sessions: seq<Session>)
    decreases |sessions|
  {
    sessions == [] || s.Stopped()
    || (var c, cursor := sessions[0], Sent(s.after);
        var next := Connect(env, s, ConnectionOf(c));
        if c.Down? then ServedByRoute(env, encode, all, start, grown, next, sessions[1..])
        else
          && grown <= c.log && EndOf(c, cursor).log <= all && Writes(env, encode, c, cursor)
          && (start <= Held(c.log, cursor) ==>
                AllPushesInStep(Accepted(c.log, cursor), start, Held(c.log, cursor), c.actions))
          && ServedByRoute(env, encode, all, start, EndOf(c, cursor).log, next, sessions[1..]))
  }

  lemma HeldAt(log: seq<string>, i: nat, all: seq<string>)
    requires log <= all && Distinct(all) && i < |log|
    ensures Held(log, Some(all[i])) == i + 1
  {
    PrefixIsDistinct(log, all);
    IndexIsUnique(log, i);
  }

  /** The route takes the cursor to mean what the client means by it. */
  lemma ClientStandsAt(initial: Option<string>, s: Client, grown: seq<string>, log: seq<string>, all: seq<string>,
                       start: nat, next: nat)
    requires Inv(initial, s) && LogFrom(all, start, initial) && HandsOut(s, all, start, next)
    requires grown <= log <= all && next <= |grown| && start == Held(grown, Sent(initial))
    requires CursorKnown(grown, all, Sent(initial))
    ensures Held(log, Sent(s.after)) == next && CursorKnown(log, all, Sent(s.after))
  {
    hide Inv, HandsOut, Held;
    AfterIs(initial, s, all, start, next);
    HeldIsWithin(grown, Sent(initial));
    if next > start {
      assert log[next - 1] == all[next - 1] && all[next - 1] != "";
      HeldAt(log, next - 1, all);
    } else if Sent(initial).Some? && initial.value in grown {
      var i := IndexOf(grown, initial.value);
      assert grown[i] == all[i] == log[i];
      HeldAt(grown, i, all);
      HeldAt(log, i, all);
    } else {
      NotHeld(grown, Sent(initial));
      NotHeld(log, Sent(initial));
    }
  }

  lemma HeldIsWithin(log: seq<string>, cursor: Option<string>)
    ensures Held(log, cursor) <= |log|
  {
  }

  lemma NotHeld(log: seq<string>, cursor: Option<string>)
    ensures cursor.None? || cursor.value !in log ==> Held(log, cursor) == 0
  {
  }

  /**
   One connection of the route, seen from the client: nothing is skipped, and the log holds all that is handed
   out.
   */
  lemma SessionExtendsSlice(env: Env, encode: string -> string, initial: Option<string>, s: Client, c: Session,
                            all: seq<string>, start: nat, next: nat)
      returns (reached: nat)
    requires c.Up? && Inv(initial, s) && LogFrom(all, start, initial) && HandsOut(s, all, start, next)
    requires c.log <= all && EndOf(c, Sent(s.after)).log <= all && Writes(env, encode, c, Sent(s.after))
    requires CursorKnown(c.log, all, Sent(s.after)) && next == Held(c.log, Sent(s.after))
    requires AllPushesInStep(Accepted(c.log, Sent(s.after)), start, next, c.actions)
    ensures NeverSkips(env, all, start, Sent(s.after), ConnectionOf(c))
    ensures HandsOut(Connect(env, s, ConnectionOf(c)), all, start, reached)
    ensures next <= reached <= |EndOf(c, Sent(s.after)).log|
  {
    hide Advance, EventIds, FramesOf, Writes, Connect, Inv, Serve;
    CursorIsNext(initial, s, all, start, next);
    RouteInStepNeverSkips(env, encode, c, all, Sent(s.after), start);
    reached := ConnectExtendsSlice(env, initial, s, ConnectionOf(c), all, start, next);
  }

  lemma {:induction false} ServedIsHonest(env: Env, encode: string -> string, initial: Option<string>, s: Client,
                                          sessions: seq<Session>, grown: seq<string>, all: seq<string>,
                                          start: nat, next: nat)
    requires Inv(initial, s) && LogFrom(all, start, initial) && HandsOut(s, all, start, next)
    requires grown <= all && next <= |grown| && start == Held(grown, Sent(initial))
    requires CursorKnown(grown, all, Sent(initial))
    requires ServedByRoute(env, encode, all, start, grown, s, sessions)
    ensures Honest(env, all, start, s, Connections(sessions))
    decreases |sessions|
  {
    assert Distinct(all);
    hide Advance, EventIds, FramesOf, Writes, Connect, Inv, Serve, NeverSkips, AllPushesInStep, LogFrom, Distinct;
    if sessions != [] && !s.Stopped() {
      var c := sessions[0];
      var s' := Connect(env, s, ConnectionOf(c));
      var reached, log := next, grown;
      assert Connections(sessions)[1..] == Connections(sessions[1..]);
      if c.Down? {
        RefusedNeverSkips(env, all, start, Sent(s.after), c.aborted);
        reached := ConnectExtendsSlice(env, initial, s, ConnectionOf(c), all, start, next);
      } else {
        log := EndOf(c, Sent(s.after)).log;
        EndIsLonger(c, Sent(s.after), all);
        ClientStandsAt(initial, s, grown, c.log, all, start, next);
        reached := SessionExtendsSlice(env, encode, initial, s, c, all, start, next);
        HeldInLonger(initial, grown, log, all);
      }
      if !s'.Stopped() {
        KeepsUnlessStopped(env, initial, s, ConnectionOf(c));
        ServedIsHonest(env, encode, initial, s', sessions[1..], log, all, start, reached);
      }
    }
  }

  lemma KeepsUnlessStopped(env: Env, initial: Option<string>, s: Client, c: Connection)
    requires Inv(initial, s) && !Connect(env, s, c).Stopped()
    ensures Inv(initial, Connect(env, s, c))
  {
    hide Connect, Inv;
    ConnectKeeps(env, initial, s, c);
  }

  lemma RefusedNeverSkips(env: Env, all: seq<string>, start: nat, cursor: Option<string>, aborted: bool)
    requires start <= |all|
    ensures NeverSkips(env, all, start, cursor, Refused(aborted))
  {
  }

  lemma EndIsLonger(c: Session, cursor: Option<string>, all: seq<string>)
    requires c.Up? && EndOf(c, cursor).log <= all
    ensures c.log <= EndOf(c, cursor).log <= all
  {
    ServeGrows(Accepted(c.log, cursor), c.actions);
  }

  lemma {:induction false} ServeGrows(s: Server, actions: seq<Action>)
    ensures s.log <= Serve(s, actions).log
    decreases |actions|
  {
    if actions != [] {
      ServeGrows(Act(s, actions[0]), actions[1..]);
    }
  }

  lemma HeldInLonger(initial: Option<string>, grown: seq<string>, log: seq<string>, all: seq<string>)
    requires grown <= log <= all && Distinct(all) && CursorKnown(grown, all, Sent(initial))
    ensures Held(log, Sent(initial)) == Held(grown, Sent(initial)) && CursorKnown(log, all, Sent(initial))
  {
    if Sent(initial).Some? && initial.value in grown {
      var i := IndexOf(grown, initial.value);
      HeldAt(grown, i, all);
      HeldAt(log, i, all);
    }
  }

  /**
   End to end: a client of the route, over every run of refusals, connections, cuts in any place, throwing
   callbacks and a store that grows meanwhile, as long as every push is in step. Its events are exactly the
   stored ones from where it started, without gap or repeat.
   */
  lemma RouteDeliversContiguousSlice(env: Env, encode: string -> string, initial: Option<string>,
                                     sessions: seq<Session>, stored: seq<string>, all: seq<string>)
    requires Distinct(all) && "" !in all && stored <= all && CursorKnown(stored, all, Sent(initial))
    requires ServedByRoute(env, encode, all, Held(stored, Sent(initial)), stored, Start(initial), sessions)
    ensures var start := Held(stored, Sent(initial));
            exists reached: nat :: HandsOut(Run(env, Start(initial), Connections(sessions)), all, start, reached)
  {
    hide ServedByRoute, Run, Honest;
    var start := Held(stored, Sent(initial));
    StartIsGood(initial, stored, all);
    ServedIsHonest(env, encode, initial, Start(initial), sessions, stored, all, start, start);
    DeliversContiguousSlice(env, initial, Connections(sessions), all, start);
  }

  lemma StartIsGood(initial: Option<string>, stored: seq<string>, all: seq<string>)
    requires Distinct(all) && "" !in all && stored <= all && CursorKnown(stored, all, Sent(initial))
    ensures Inv(initial, Start(initial))
    ensures var start := Held(stored, Sent(initial));
            LogFrom(all, start, initial) && HandsOut(Start(initial), all, start, start)
  {
    var start := Held(stored, Sent(initial));
    assert all[start..start] == [];
    if initial.Some? {
      if initial.value in stored {
        assert all[start - 1] == initial.value;
      }
      NotInRest(all, start, initial.value);
    }
  }

  lemma NotInRest(all: seq<string>, start: nat, x: string)
    requires start <= |all| && forall j :: start <= j < |all| ==> all[j] != x
    ensures x !in all[start..]
  {
  }
}
