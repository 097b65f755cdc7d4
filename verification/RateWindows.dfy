/**
 What the limiter guarantees over whole request histories, with a clock that does not go back, a
 fixed window and a fixed maximum: the shared, capped map acts as one independent window counter for
 each key that the cap does not evict, and such a counter bounds every sliding window.
 */
module RateWindows {
  import opened Wrappers
  import opened Sequences
  import opened JsMap
  import opened RateLimiter

  datatype Request = Request(key: string, at: int)

  /** The buckets after a history that starts from none. */
  function After(reqs: seq<Request>, w: int, max: int): Buckets {
    if reqs == [] then []
    else
      var last := reqs[|reqs| - 1];
      Hit(After(reqs[..|reqs| - 1], w, max), last.key, last.at, w, max).buckets
  }

  predicate Limited(reqs: seq<Request>, i: nat, w: int, max: int)
    requires i < |reqs|
  {
    Hit(After(reqs[..i], w, max), reqs[i].key, reqs[i].at, w, max).limited
  }

  ghost predicate Clocked(reqs: seq<Request>) {
    && (forall i, j :: 0 <= i < j < |reqs| ==> reqs[i].at <= reqs[j].at)
    && (forall i :: 0 <= i < |reqs| ==> reqs[i].key != "")
  }

  // ---------------------------------------------------------------- the shape of the map

  /** Live buckets under distinct keys, ordered by reset time, no later than a full window ahead, within the cap. */
  ghost predicate Inv(b: Buckets, now: int, w: int) {
    && Wf(b)
    && |b| <= 10000
    && (forall i :: 0 <= i < |b| ==> b[i].key != "" && now < b[i].value.resetAt <= now + w && b[i].value.count >= 1)
    && (forall i, j :: 0 <= i < j < |b| ==> b[i].value.resetAt <= b[j].value.resetAt)
  }

  /** The same without liveness: how the map stands when the next request comes in. */
  ghost predicate Ordered(b: Buckets, now: int, w: int) {
    && Wf(b)
    && (forall i :: 0 <= i < |b| ==> b[i].key != "" && b[i].value.resetAt <= now + w && b[i].value.count >= 1)
    && (forall i, j :: 0 <= i < j < |b| ==> b[i].value.resetAt <= b[j].value.resetAt)
  }

  /** In a map ordered by reset time, what is alive is a suffix. */
  lemma {:induction false} AliveIsSuffix(b: Buckets, t: int) returns (cut: nat)
    requires forall i, j :: 0 <= i < j < |b| ==> b[i].value.resetAt <= b[j].value.resetAt
    ensures cut <= |b| && Filter(b, Alive(t)) == b[cut..]
    ensures forall i :: 0 <= i < |b| ==> (b[i].value.resetAt > t <==> i >= cut)
  {
    cut := 0;
    if b != [] {
      var init, last := b[..|b| - 1], b[|b| - 1];
      assert b == init + [last];
      cut := AliveIsSuffix(init, t);
      if Alive(t)(last) {
        SuffixSnoc(init, last, cut);
      } else {
        assert cut == |init|;
        cut := |b|;
      }
    }
  }

  lemma SuffixSnoc<T>(s: seq<T>, last: T, cut: nat)
    requires cut <= |s|
    ensures (s + [last])[cut..] == s[cut..] + [last]
  {
  }

  lemma {:induction false} DropOldestIsSuffix(b: Buckets)
    requires forall i :: 0 <= i < |b| ==> b[i].key != ""
    ensures DropOldest(b) == if |b| <= MAX_RATE_LIMIT_BUCKETS then b else b[|b| - MAX_RATE_LIMIT_BUCKETS..]
  {
    if |b| > MAX_RATE_LIMIT_BUCKETS {
      assert forall i :: 0 <= i < |b[1..]| ==> b[1..][i] == b[i + 1];
      DropOldestIsSuffix(b[1..]);
    }
  }

  /** Pruning keeps a suffix: it drops the expired buckets and then, over the cap, those closest to reset. */
  lemma PruneIsSuffix(b: Buckets, now: int, w: int, t: int) returns (cut: nat)
    requires Ordered(b, now, w)
    ensures cut <= |b| && Prune(b, t) == b[cut..] && |b| - cut <= MAX_RATE_LIMIT_BUCKETS
    ensures forall i :: cut <= i < |b| ==> b[i].value.resetAt > t
    ensures |b| - cut < MAX_RATE_LIMIT_BUCKETS || |b| <= MAX_RATE_LIMIT_BUCKETS
            ==> forall i :: 0 <= i < cut ==> b[i].value.resetAt <= t
  {
    hide DropOldest, Filter, Wf;
    cut := AliveIsSuffix(b, t);
    var live := b[cut..];
    assert forall i :: 0 <= i < |live| ==> live[i] == b[cut + i];
    DropOldestIsSuffix(live);
    if |live| > MAX_RATE_LIMIT_BUCKETS {
      assert live[|live| - MAX_RATE_LIMIT_BUCKETS..] == b[|b| - MAX_RATE_LIMIT_BUCKETS..];
      cut := |b| - MAX_RATE_LIMIT_BUCKETS;
    }
  }

  lemma GetInSuffix(b: Buckets, cut: nat, k: string)
    requires Wf(b) && cut <= |b|
    ensures Get(b[cut..], k).Some? ==> Get(b[cut..], k) == Get(b, k)
    ensures Get(b, k).Some? && Get(b[cut..], k).None? ==> exists i :: 0 <= i < cut && b[i] == Entry(k, Get(b, k).value)
  {
    assert b == b[..cut] + b[cut..];
    if Get(b[cut..], k).Some? {
      GetInSecond(b[..cut], b[cut..], k);
    } else if Get(b, k).Some? {
      var i :| 0 <= i < |b| && b[i] == Entry(k, Get(b, k).value);
      assert forall j :: 0 <= j < |b[cut..]| ==> b[cut..][j] == b[cut + j];
    }
  }

  lemma CountingKeepsInv(live: Buckets, key: string, now: int, w: int)
    requires Inv(live, now, w) && Get(live, key).Some?
    ensures var bucket := Get(live, key).value;
            Inv(Put(live, key, Bucket(bucket.resetAt, bucket.count + 1)), now, w)
  {
    hide Put, Get;
    var bucket := Get(live, key).value;
    var i := PutPresent(live, key, Bucket(bucket.resetAt, bucket.count + 1));
  }

  /** A new bucket goes to the end; over the cap, only the bucket closest to reset goes. */
  lemma OpeningKeepsInv(live: Buckets, key: string, now: int, w: int)
    requires Inv(live, now, w) && Get(live, key).None? && w > 0 && key != ""
    ensures var grown := live + [Entry(key, Bucket(now + w, 1))];
            && Put(live, key, Bucket(now + w, 1)) == grown
            && Prune(grown, now) == (if |live| < MAX_RATE_LIMIT_BUCKETS then grown else grown[1..])
            && Inv(Prune(grown, now), now, w)
  {
    hide Put, Prune, Get;
    PutEffect(live, key, Bucket(now + w, 1));
    PutKeepsWf(live, key, Bucket(now + w, 1));
    var grown := live + [Entry(key, Bucket(now + w, 1))];
    var cut := PruneIsSuffix(grown, now, w, now);
    assert grown[0..] == grown;
    assert forall i :: 0 <= i < |grown| ==> grown[i].value.resetAt > now;
    assert cut > 0 ==> grown[cut - 1].value.resetAt > now;
    SuffixKeepsInv(grown, cut, now, w);
  }

  lemma SuffixKeepsInv(b: Buckets, cut: nat, now: int, w: int)
    requires Ordered(b, now, w) && cut <= |b| && |b| - cut <= MAX_RATE_LIMIT_BUCKETS
    requires forall i :: cut <= i < |b| ==> b[i].value.resetAt > now
    ensures Inv(b[cut..], now, w)
  {
    assert forall i :: 0 <= i < |b[cut..]| ==> b[cut..][i] == b[cut + i];
  }

  lemma LaterIsOrdered(b: Buckets, before: int, now: int, w: int)
    requires Ordered(b, before, w) && before <= now
    ensures Ordered(b, now, w)
  {
  }

  lemma PruningGivesInv(b: Buckets, before: int, now: int, w: int) returns (cut: nat)
    requires Inv(b, before, w) && before <= now
    ensures cut <= |b| && Prune(b, now) == b[cut..] && Inv(b[cut..], now, w)
    ensures forall i :: 0 <= i < cut ==> b[i].value.resetAt <= now
  {
    hide Prune;
    cut := PruneIsSuffix(b, before, w, now);
    LaterIsOrdered(b, before, now, w);
    SuffixKeepsInv(b, cut, now, w);
  }

  lemma LiveGet(b: Buckets, before: int, now: int, w: int, k: string)
    requires Inv(b, before, w) && before <= now
    ensures Inv(Prune(b, now), now, w) && Get(Prune(b, now), k) == Live(Get(b, k), now)
  {
    hide Prune;
    var cut := PruningGivesInv(b, before, now, w);
    GetInSuffix(b, cut, k);
    if Get(b[cut..], k).Some? {
      var i :| 0 <= i < |b[cut..]| && b[cut..][i] == Entry(k, Get(b[cut..], k).value);
    }
  }

  function Opened(live: Buckets, key: string, now: int, w: int): Buckets {
    var grown := live + [Entry(key, Bucket(now + w, 1))];
    if |live| < MAX_RATE_LIMIT_BUCKETS then grown else grown[1..]
  }

  /** What one request does: count in place, or open a bucket at the end. */
  lemma HitCases(b: Buckets, before: int, r: Request, w: int, max: int)
    requires Inv(b, before, w) && before <= r.at && w > 0 && r.key != ""
    ensures var live := Prune(b, r.at);
            && Inv(live, r.at, w)
            && Hit(b, r.key, r.at, w, max)
               == if Get(live, r.key).None? then Answer(Opened(live, r.key, r.at, w), false)
                  else var bucket := Get(live, r.key).value;
                       Answer(Put(live, r.key, Bucket(bucket.resetAt, bucket.count + 1)), bucket.count + 1 > max)
  {
    hide Prune, Inv;
    LiveGet(b, before, r.at, w, r.key);
    if Get(Prune(b, r.at), r.key).None? {
      OpeningKeepsInv(Prune(b, r.at), r.key, r.at, w);
    }
  }

  /** One request keeps the shape, whichever branch it takes. */
  lemma HitKeepsInv(b: Buckets, before: int, r: Request, w: int, max: int)
    requires Inv(b, before, w) && before <= r.at && w > 0 && r.key != ""
    ensures Inv(Hit(b, r.key, r.at, w, max).buckets, r.at, w)
  {
    hide Prune, Inv, Hit;
    var live := Prune(b, r.at);
    HitCases(b, before, r, w, max);
    if Get(live, r.key).Some? {
      CountingKeepsInv(live, r.key, r.at, w);
    } else {
      OpeningKeepsInv(live, r.key, r.at, w);
    }
  }

  /** After every request of a history, the map has its shape. */
  lemma {:induction false} HistoryKeepsInv(reqs: seq<Request>, w: int, max: int)
    requires Clocked(reqs) && w > 0 && reqs != []
    ensures Inv(After(reqs, w, max), reqs[|reqs| - 1].at, w)
  {
    var init, last := reqs[..|reqs| - 1], reqs[|reqs| - 1];
    if init != [] {
      HistoryKeepsInv(init, w, max);
      HitKeepsInv(After(init, w, max), init[|init| - 1].at, last, w, max);
    } else {
      HitKeepsInv([], last.at, last, w, max);
    }
  }

  // ---------------------------------------------------------------- one key alone

  /** The times of the requests for one key. */
  function Times(reqs: seq<Request>, k: string): seq<int> {
    if reqs == [] then []
    else Times(reqs[..|reqs| - 1], k) + if reqs[|reqs| - 1].key == k then [reqs[|reqs| - 1].at] else []
  }

  function Live(bucket: Option<Bucket>, now: int): Option<Bucket> {
    if bucket.Some? && bucket.value.resetAt > now then bucket else None
  }

  /** A fixed-window counter on its own: a new window when the old one is over. */
  function Tick(bucket: Option<Bucket>, t: int, w: int): Bucket {
    if Live(bucket, t).None? then Bucket(t + w, 1) else Bucket(bucket.value.resetAt, bucket.value.count + 1)
  }

  function Window(ts: seq<int>, w: int): Option<Bucket> {
    if ts == [] then None else Some(Tick(Window(ts[..|ts| - 1], w), ts[|ts| - 1], w))
  }

  /** A count passes when it opens a window or stays within the maximum. */
  predicate Passes(count: nat, max: int) {
    count == 1 || count <= max
  }

  predicate Admitted(ts: seq<int>, i: nat, w: int, max: int)
    requires i < |ts|
  {
    Passes(Window(ts[..i + 1], w).value.count, max)
  }

  /** The cap takes a live bucket away while another key opens its own. */
  predicate Evicts(b: Buckets, r: Request, w: int, max: int, k: string) {
    r.key != k && Get(Prune(b, r.at), k).Some? && Get(Hit(b, r.key, r.at, w, max).buckets, k).None?
  }

  ghost predicate NeverEvicted(reqs: seq<Request>, w: int, max: int, k: string) {
    forall i :: 0 <= i < |reqs| ==> !Evicts(After(reqs[..i], w, max), reqs[i], w, max, k)
  }

  /** One request, seen from one key: its own tick, or nothing but the passing of time, unless it is evicted. */
  lemma HitForKey(b: Buckets, before: int, r: Request, w: int, max: int, k: string)
    requires Inv(b, before, w) && before <= r.at && w > 0 && r.key != ""
    ensures var answer := Hit(b, r.key, r.at, w, max);
            if r.key == k then
              var ticked := Tick(Get(b, k), r.at, w);
              Get(answer.buckets, k) == Some(ticked) && (answer.limited <==> ticked.count != 1 && ticked.count > max)
            else
              Evicts(b, r, w, max, k) || Get(answer.buckets, k) == Live(Get(b, k), r.at)
  {
    hide Prune, Hit, Put, Get, Inv;
    var live := Prune(b, r.at);
    HitCases(b, before, r, w, max);
    CountsArePositive(live, r.at, w);
    LiveGet(b, before, r.at, w, k);
    LiveGet(b, before, r.at, w, r.key);
    if Get(live, r.key).Some? {
      var bucket := Get(live, r.key).value;
      GetAfterPut(live, r.key, Bucket(bucket.resetAt, bucket.count + 1), k);
    } else {
      OpenForKey(live, r.key, r.at, w, k);
    }
  }

  lemma CountsArePositive(live: Buckets, now: int, w: int)
    requires Inv(live, now, w)
    ensures Wf(live) && forall k :: Get(live, k).Some? ==> Get(live, k).value.count >= 1
  {
    hide Get;
    forall k | Get(live, k).Some? ensures Get(live, k).value.count >= 1 {
      var i :| 0 <= i < |live| && live[i] == Entry(k, Get(live, k).value);
    }
  }

  lemma OpenForKey(live: Buckets, key: string, now: int, w: int, k: string)
    requires Inv(live, now, w) && Get(live, key).None? && w > 0 && key != ""
    ensures var b := Get(Opened(live, key, now, w), k);
            if k == key then b == Some(Bucket(now + w, 1)) else b.None? || b == Get(live, k)
  {
    hide Put, Get;
    OpeningKeepsInv(live, key, now, w);
    var grown := live + [Entry(key, Bucket(now + w, 1))];
    GetAfterPut(live, key, Bucket(now + w, 1), k);
    PutKeepsWf(live, key, Bucket(now + w, 1));
    GetInSuffix(grown, 1, k);
    if k == key && |live| >= MAX_RATE_LIMIT_BUCKETS {
      assert grown[1..][|live| - 1] == Entry(key, Bucket(now + w, 1));
    }
  }

  /**
   The shared map refines independent counters: for a key that the cap does not evict, its bucket is
   the counter of its own requests, and each of its requests is refused exactly when that counter refuses it.
   */
  lemma {:induction false} KeyActsAlone(reqs: seq<Request>, w: int, max: int, k: string)
    requires Clocked(reqs) && w > 0 && NeverEvicted(reqs, w, max, k) && reqs != []
    ensures Get(After(reqs, w, max), k) == Live(Window(Times(reqs, k), w), reqs[|reqs| - 1].at)
    ensures reqs[|reqs| - 1].key == k ==>
              (Limited(reqs, |reqs| - 1, w, max) <==> !Admitted(Times(reqs, k), |Times(reqs, k)| - 1, w, max))
  {
    hide Hit, Prune, Inv, Evicts, After, Times, Window, Get, Tick, Live, Passes, Admitted;
    var init, last := reqs[..|reqs| - 1], reqs[|reqs| - 1];
    var b, ts := After(init, w, max), Times(init, k);
    var before := if init == [] then last.at else init[|init| - 1].at;
    assert reqs == init + [last];
    LastStep(init, last, w, max, k);
    NeverEvictedInit(init, last, w, max, k);
    if init != [] {
      KeyActsAlone(init, w, max, k);
      HistoryKeepsInv(init, w, max);
    } else {
      EmptyIsInv(before, w);
      NothingYet(w, max, k, before);
    }
    KeyStep(b, before, last, w, max, k, ts);
  }

  lemma LastStep(init: seq<Request>, last: Request, w: int, max: int, k: string)
    ensures After(init + [last], w, max) == Hit(After(init, w, max), last.key, last.at, w, max).buckets
    ensures Limited(init + [last], |init|, w, max) <==> Hit(After(init, w, max), last.key, last.at, w, max).limited
    ensures Times(init + [last], k) == if last.key == k then Times(init, k) + [last.at] else Times(init, k)
  {
    hide Hit;
    assert (init + [last])[..|init|] == init;
  }

  lemma NeverEvictedInit(init: seq<Request>, last: Request, w: int, max: int, k: string)
    requires NeverEvicted(init + [last], w, max, k)
    ensures NeverEvicted(init, w, max, k) && !Evicts(After(init, w, max), last, w, max, k)
  {
    hide Evicts, After;
    var reqs := init + [last];
    assert reqs[..|init|] == init && !Evicts(After(reqs[..|init|], w, max), reqs[|init|], w, max, k);
    forall i | 0 <= i < |init| ensures !Evicts(After(init[..i], w, max), init[i], w, max, k) {
      assert init[..i] == reqs[..i] && init[i] == reqs[i];
    }
  }

  lemma NothingYet(w: int, max: int, k: string, now: int)
    ensures After([], w, max) == [] && Get(After([], w, max), k) == Live(Window(Times([], k), w), now)
  {
  }

  lemma KeyStep(b: Buckets, before: int, last: Request, w: int, max: int, k: string, ts: seq<int>)
    requires Inv(b, before, w) && before <= last.at && w > 0 && last.key != ""
    requires Get(b, k) == Live(Window(ts, w), before) && !Evicts(b, last, w, max, k)
    ensures var answer, ts' := Hit(b, last.key, last.at, w, max), if last.key == k then ts + [last.at] else ts;
            (Get(answer.buckets, k) == Live(Window(ts', w), last.at)
            && (last.key == k ==> (answer.limited <==> !Admitted(ts', |ts'| - 1, w, max))))
  {
    hide Hit, Prune, Inv, Evicts, Window, Get, Admitted;
    HitForKey(b, before, last, w, max, k);
    WindowSnoc(ts, last.at, w, max);
  }

  lemma WindowSnoc(ts: seq<int>, t: int, w: int, max: int)
    requires w > 0
    ensures Window(ts + [t], w) == Some(Tick(Window(ts, w), t, w))
    ensures Tick(Window(ts, w), t, w).resetAt > t
    ensures Admitted(ts + [t], |ts|, w, max)
       <==> Passes(Tick(Window(ts, w), t, w).count, max)
  {
    assert (ts + [t])[..|ts|] == ts && (ts + [t])[..|ts| + 1] == ts + [t];
  }

  lemma EmptyIsInv(now: int, w: int)
    ensures Inv([], now, w)
  {
  }

  // ---------------------------------------------------------------- sliding windows

  ghost predicate Ascending(ts: seq<int>) {
    forall i, j :: 0 <= i < j < |ts| ==> ts[i] <= ts[j]
  }

  /** How many requests with a time in [lo, lo + w) the counter admits. */
  function AdmittedIn(ts: seq<int>, lo: int, w: int, max: int): nat {
    if ts == [] then 0
    else
      AdmittedIn(ts[..|ts| - 1], lo, w, max)
      + if lo <= ts[|ts| - 1] < lo + w && Admitted(ts, |ts| - 1, w, max) then 1 else 0
  }

  lemma AdmittedInSnoc(ts: seq<int>, t: int, lo: int, w: int, max: int)
    requires w > 0
    ensures AdmittedIn(ts + [t], lo, w, max)
         == AdmittedIn(ts, lo, w, max)
            + if lo <= t < lo + w && Passes(Tick(Window(ts, w), t, w).count, max) then 1 else 0
  {
    WindowSnoc(ts, t, w, max);
    assert (ts + [t])[..|ts|] == ts;
  }

  lemma {:induction false} NothingBefore(ts: seq<int>, lo: int, w: int, max: int)
    requires forall i :: 0 <= i < |ts| ==> ts[i] < lo
    ensures AdmittedIn(ts, lo, w, max) == 0
  {
    if ts != [] {
      NothingBefore(ts[..|ts| - 1], lo, w, max);
    }
  }

  /** What has been admitted from `lo` on, when the current window was opened before `lo`, or since. */
  ghost predicate WithinBound(ts: seq<int>, lo: int, w: int, max: int)
    requires ts != []
  {
    var b := Window(ts, w).value;
    var spent := if b.count <= max then b.count else max;
    && b.count >= 1
    && b.resetAt - w <= ts[|ts| - 1] < b.resetAt
    && AdmittedIn(ts, lo, w, max) <= if b.resetAt - w < lo then spent - 1 else max - 1 + spent
  }

  lemma {:induction false} BoundHolds(ts: seq<int>, lo: int, w: int, max: int)
    requires ts != [] && Ascending(ts) && w > 0 && max >= 1 && ts[|ts| - 1] < lo + w
    ensures WithinBound(ts, lo, w, max)
  {
    hide Window, Admitted, AdmittedIn, WithinBound;
    var init, t := ts[..|ts| - 1], ts[|ts| - 1];
    assert ts == init + [t];
    if init == [] {
      NoWindowYet(lo, w, max);
      FirstTick(t, lo, w, max);
    } else {
      BoundHolds(init, lo, w, max);
      if t < lo {
        NothingBefore(ts, lo, w, max);
      }
      BoundStep(init, t, lo, w, max);
    }
  }

  lemma NoWindowYet(lo: int, w: int, max: int)
    ensures Window([], w).None? && AdmittedIn([], lo, w, max) == 0
  {
  }

  lemma FirstTick(t: int, lo: int, w: int, max: int)
    requires w > 0 && max >= 1 && t < lo + w
    ensures WithinBound([t], lo, w, max)
  {
    hide Window, Admitted, AdmittedIn;
    var none: seq<int> := [];
    assert none + [t] == [t];
    NoWindowYet(lo, w, max);
    WindowSnoc(none, t, w, max);
    AdmittedInSnoc(none, t, lo, w, max);
    assert Window([t], w) == Some(Bucket(t + w, 1));
  }

  lemma BoundStep(init: seq<int>, t: int, lo: int, w: int, max: int)
    requires init != [] && w > 0 && max >= 1 && init[|init| - 1] <= t < lo + w && WithinBound(init, lo, w, max)
    requires t < lo ==> AdmittedIn(init + [t], lo, w, max) == 0
    ensures WithinBound(init + [t], lo, w, max)
  {
    hide Window, Admitted, AdmittedIn;
    WindowIsOpen(init, w);
    WindowSnoc(init, t, w, max);
    AdmittedInSnoc(init, t, lo, w, max);
  }

  lemma WindowIsOpen(ts: seq<int>, w: int)
    requires ts != []
    ensures Window(ts, w).Some?
  {
  }

  /** Any half-open interval as long as the window admits fewer than twice the maximum. */
  lemma {:induction false} SlidingWindowBound(ts: seq<int>, lo: int, w: int, max: int)
    requires Ascending(ts) && w > 0 && max >= 1
    ensures AdmittedIn(ts, lo, w, max) <= 2 * max - 1
  {
    if ts != [] {
      if ts[|ts| - 1] < lo + w {
        BoundHolds(ts, lo, w, max);
      } else {
        SlidingWindowBound(ts[..|ts| - 1], lo, w, max);
      }
    }
  }

  /** A request that opens a window: there is none, or it is over. */
  predicate Opens(ts: seq<int>, c: nat, w: int)
    requires c < |ts|
  {
    Live(Window(ts[..c], w), ts[c]).None?
  }

  /** In the window that a request opens, the count is that of the requests since, and the first `max` pass. */
  lemma {:induction false} WindowAdmitsTheFirst(ts: seq<int>, c: nat, i: nat, w: int, max: int)
    requires Ascending(ts) && w > 0 && c <= i < |ts| && Opens(ts, c, w) && ts[i] < ts[c] + w
    ensures Window(ts[..i + 1], w) == Some(Bucket(ts[c] + w, i - c + 1))
    ensures Admitted(ts, i, w, max) <==> i == c || i - c < max
    decreases i
  {
    assert ts[..i + 1] == ts[..i] + [ts[i]];
    WindowSnoc(ts[..i], ts[i], w, max);
    if i > c {
      WindowAdmitsTheFirst(ts, c, i - 1, w, max);
    }
  }

  /** Every bucket was opened by some request of its key, and counts that request and all since. */
  lemma {:induction false} CountIsRequestsSince(ts: seq<int>, w: int, max: int) returns (c: nat)
    requires Ascending(ts) && w > 0 && ts != []
    ensures c < |ts| && Opens(ts, c, w) && Window(ts, w) == Some(Bucket(ts[c] + w, |ts| - c))
  {
    var last := |ts| - 1;
    c := last;
    assert ts[..last + 1] == ts;
    if !Opens(ts, last, w) {
      c := CountIsRequestsSince(ts[..last], w, max);
      assert ts[..last][..c] == ts[..c];
      WindowAdmitsTheFirst(ts, c, last, w, max);
    } else {
      WindowAdmitsTheFirst(ts, last, last, w, max);
    }
  }

  function Repeat(t: int, n: nat): (ts: seq<int>)
    ensures |ts| == n && forall i :: 0 <= i < n ==> ts[i] == t
  {
    seq(n, _ => t)
  }

  /** One request, the rest of its window at the very end of it, then a whole next window at once. */
  function Burst(w: int, max: nat): (ts: seq<int>)
    requires max >= 1
    ensures |ts| == 2 * max
  {
    [0] + Repeat(w - 1, max - 1) + Repeat(w, max)
  }

  lemma BurstTimes(w: int, max: nat)
    requires w >= 2 && max >= 1
    ensures |Burst(w, max)| == 2 * max && Ascending(Burst(w, max))
    ensures forall j :: 0 <= j < 2 * max ==> Burst(w, max)[j] == if j == 0 then 0 else if j < max then w - 1 else w
  {
  }

  lemma BurstAdmitted(w: int, max: nat, i: nat)
    requires w >= 2 && max >= 1 && i < 2 * max
    ensures Ascending(Burst(w, max)) && Admitted(Burst(w, max), i, w, max)
    ensures 1 <= Burst(w, max)[i] < 1 + w <==> i > 0
  {
    hide Window, Burst;
    var ts := Burst(w, max);
    BurstTimes(w, max);
    OpensAtZero(ts, w);
    if i < max {
      WindowAdmitsTheFirst(ts, 0, i, w, max);
    } else {
      WindowAdmitsTheFirst(ts, 0, max - 1, w, max);
      WindowAdmitsTheFirst(ts, max, i, w, max);
    }
  }

  lemma OpensAtZero(ts: seq<int>, w: int)
    requires ts != []
    ensures Opens(ts, 0, w)
  {
  }

  lemma {:induction false} BurstCounts(w: int, max: nat, n: nat)
    requires w >= 2 && max >= 1 && 1 <= n <= 2 * max
    ensures AdmittedIn(Burst(w, max)[..n], 1, w, max) == n - 1
  {
    hide Window, Burst;
    var ts, i := Burst(w, max), n - 1;
    BurstAdmitted(w, max, i);
    assert ts[..n][..i] == ts[..i] && ts[..n][..i + 1] == ts[..i + 1] && ts[..n][i] == ts[i];
    if n > 1 {
      BurstCounts(w, max, i);
    }
  }

  /** What the counter has spent of the millisecond `lo`. */
  ghost predicate SpentAt(ts: seq<int>, lo: int, max: int) {
    var b := Window(ts, 1);
    && b.Some? && b.value.resetAt == lo + 1 && b.value.count >= 1
    && AdmittedIn(ts, lo, 1, max) <= if b.value.count <= max then b.value.count else max
  }

  lemma OneMore(init: seq<int>, lo: int, max: int)
    requires max >= 1
    requires SpentAt(init, lo, max) || (AdmittedIn(init, lo, 1, max) == 0 && Live(Window(init, 1), lo).None?)
    ensures SpentAt(init + [lo], lo, max)
  {
    hide Window, Admitted, AdmittedIn;
    WindowSnoc(init, lo, 1, max);
    AdmittedInSnoc(init, lo, lo, 1, max);
  }

  /** A window of one millisecond is over before the next one begins: what it holds opens in it. */
  lemma {:induction false} OneMillisecond(ts: seq<int>, lo: int, max: int)
    requires Ascending(ts) && max >= 1 && ts != [] && ts[|ts| - 1] == lo
    ensures SpentAt(ts, lo, max)
  {
    hide Window, Admitted, AdmittedIn, SpentAt, Live;
    var init := ts[..|ts| - 1];
    assert ts == init + [lo];
    if init != [] && init[|init| - 1] == lo {
      OneMillisecond(init, lo, max);
    } else {
      EarlierIsOver(init, lo, max);
    }
    OneMore(init, lo, max);
  }

  lemma EarlierIsOver(init: seq<int>, lo: int, max: int)
    requires Ascending(init) && (init == [] || init[|init| - 1] < lo)
    ensures AdmittedIn(init, lo, 1, max) == 0 && Live(Window(init, 1), lo).None?
  {
    hide Window, Admitted, AdmittedIn, Opens;
    if init == [] {
      NoWindowYet(lo, 1, max);
    } else {
      NothingBefore(init, lo, 1, max);
      var c := CountIsRequestsSince(init, 1, max);
    }
  }

  /** So one millisecond admits at most the maximum. */
  lemma {:induction false} OneMillisecondBound(ts: seq<int>, lo: int, max: int)
    requires Ascending(ts) && max >= 1
    ensures AdmittedIn(ts, lo, 1, max) <= max
  {
    if ts != [] {
      var last := ts[|ts| - 1];
      if last > lo {
        OneMillisecondBound(ts[..|ts| - 1], lo, max);
      } else if last == lo {
        OneMillisecond(ts, lo, max);
      } else {
        NothingBefore(ts, lo, 1, max);
      }
    }
  }

  /** The most that any interval of the window's length admits. */
  function MostAdmitted(w: int, max: nat): int {
    if w == 1 then max else 2 * max - 1
  }

  lemma IntervalBound(ts: seq<int>, lo: int, w: int, max: nat)
    requires Ascending(ts) && w > 0 && max >= 1
    ensures AdmittedIn(ts, lo, w, max) <= MostAdmitted(w, max)
  {
    hide AdmittedIn;
    if w == 1 {
      OneMillisecondBound(ts, lo, max);
    } else {
      SlidingWindowBound(ts, lo, w, max);
    }
  }

  function WorstCase(w: int, max: nat): seq<int>
    requires max >= 1
  {
    if w == 1 then Repeat(1, max) else Burst(w, max)
  }

  lemma {:induction false} AllAtOnceCounts(max: nat, n: nat)
    requires n <= max && max >= 1
    ensures AdmittedIn(Repeat(1, max)[..n], 1, 1, max) == n
  {
    hide Window;
    var ts := Repeat(1, max);
    if n > 0 {
      AllAtOnceCounts(max, n - 1);
      assert ts[..n][..n - 1] == ts[..n - 1] && ts[..n][..n] == ts[..n] && ts[..n][n - 1] == ts[n - 1];
      OpensAtZero(ts, 1);
      WindowAdmitsTheFirst(ts, 0, n - 1, 1, max);
    }
  }

  /** The bound is reached, for every maximum and every window. */
  lemma BoundIsReached(w: int, max: nat)
    requires w >= 1 && max >= 1
    ensures Ascending(WorstCase(w, max)) && AdmittedIn(WorstCase(w, max), 1, w, max) == MostAdmitted(w, max)
  {
    hide AdmittedIn, Burst;
    if w == 1 {
      AllAtOnceCounts(max, max);
      assert Repeat(1, max)[..max] == Repeat(1, max);
    } else {
      BurstTimes(w, max);
      BurstCounts(w, max, 2 * max);
      assert Burst(w, max)[..2 * max] == Burst(w, max);
    }
  }

  // ---------------------------------------------------------------- back to the shared map

  /** How many requests for a key with a time in [lo, lo + w) the limiter lets pass. */
  function Passed(reqs: seq<Request>, k: string, lo: int, w: int, max: int): nat {
    if reqs == [] then 0
    else
      var last := reqs[|reqs| - 1];
      Passed(reqs[..|reqs| - 1], k, lo, w, max)
      + if last.key == k && lo <= last.at < lo + w && !Limited(reqs, |reqs| - 1, w, max) then 1 else 0
  }

  lemma {:induction false} TimesAscend(reqs: seq<Request>, k: string)
    requires Clocked(reqs)
    ensures Ascending(Times(reqs, k))
    ensures forall i :: 0 <= i < |Times(reqs, k)| ==> Times(reqs, k)[i] <= reqs[|reqs| - 1].at
  {
    if reqs != [] {
      TimesAscend(reqs[..|reqs| - 1], k);
    }
  }

  lemma {:induction false} PassedIsAdmitted(reqs: seq<Request>, k: string, lo: int, w: int, max: int)
    requires Clocked(reqs) && w > 0 && NeverEvicted(reqs, w, max, k)
    ensures Passed(reqs, k, lo, w, max) == AdmittedIn(Times(reqs, k), lo, w, max)
  {
    hide After, Evicts, Admitted, Limited, Get;
    if reqs != [] {
      var init := reqs[..|reqs| - 1];
      assert forall i :: 0 <= i < |init| ==> init[..i] == reqs[..i];
      PassedIsAdmitted(init, k, lo, w, max);
      KeyActsAlone(reqs, w, max, k);
      var ts, t := Times(init, k), reqs[|init|].at;
      assert (ts + [t])[..|ts|] == ts;
      assert Times(reqs, k) == if reqs[|init|].key == k then ts + [t] else ts;
    }
  }

  /**
   The promise of the limiter: in any history, for a key that the cap never evicts, any interval as
   long as the window lets fewer than twice the maximum pass.
   */
  lemma LimiterBound(reqs: seq<Request>, k: string, lo: int, w: int, max: nat)
    requires Clocked(reqs) && w > 0 && max >= 1 && NeverEvicted(reqs, w, max, k)
    ensures Passed(reqs, k, lo, w, max) <= MostAdmitted(w, max) <= 2 * max - 1
  {
    PassedIsAdmitted(reqs, k, lo, w, max);
    TimesAscend(reqs, k);
    IntervalBound(Times(reqs, k), lo, w, max);
  }

  // ---------------------------------------------------------------- when nothing is evicted

  /** The keys of the requests after a time. */
  function RecentKeys(reqs: seq<Request>, since: int): set<string> {
    set r | r in reqs && r.at > since :: r.key
  }

  /** In no stretch of the window's length do more keys come than the map may hold: a caller can see that. */
  ghost predicate FewKeys(reqs: seq<Request>, w: int) {
    forall i :: 0 <= i < |reqs| ==> |RecentKeys(reqs[..i + 1], reqs[i].at - w)| <= 10000
  }

  ghost predicate OpenedBy(reqs: seq<Request>, e: Entry<string, Bucket>, w: int) {
    exists r :: r in reqs && r.key == e.key && r.at == e.value.resetAt - w
  }

  lemma OpenedByMore(reqs: seq<Request>, r: Request, e: Entry<string, Bucket>, w: int)
    requires OpenedBy(reqs, e, w)
    ensures OpenedBy(reqs + [r], e, w)
  {
    var o :| o in reqs && o.key == e.key && o.at == e.value.resetAt - w;
    assert o in reqs + [r];
  }

  /** Every bucket was opened by a request of its key, a window before it resets. */
  lemma {:induction false} BucketsWereOpened(reqs: seq<Request>, w: int, max: int)
    requires Clocked(reqs) && w > 0
    ensures forall e :: e in After(reqs, w, max) ==> OpenedBy(reqs, e, w)
    decreases |reqs|
  {
    hide After, Hit, Prune, Get, Put, Inv, OpenedBy;
    if reqs == [] {
      NothingYet(w, max, "", 0);
    } else {
      var init, r := reqs[..|reqs| - 1], reqs[|reqs| - 1];
      assert reqs == init + [r];
      BucketsWereOpened(init, w, max);
      AfterSnoc(init, r, w, max);
      var before := BeforeNext(init, r, w, max);
      HitWasOpened(init, After(init, w, max), before, r, w, max);
    }
  }

  lemma HitWasOpened(init: seq<Request>, b: Buckets, before: int, r: Request, w: int, max: int)
    requires Inv(b, before, w) && before <= r.at && w > 0 && r.key != ""
    requires forall e :: e in b ==> OpenedBy(init, e, w)
    ensures forall e :: e in Hit(b, r.key, r.at, w, max).buckets ==> OpenedBy(init + [r], e, w)
  {
    hide Hit, Prune, Get, Put, Inv, OpenedBy;
    var live := Prune(b, r.at);
    HitCases(b, before, r, w, max);
    var cut := PruningGivesInv(b, before, r.at, w);
    forall e | e in live ensures OpenedBy(init + [r], e, w) {
      assert e in b;
      OpenedByMore(init, r, e, w);
    }
    if Get(live, r.key).None? {
      OpenedNow(init, r, w);
      assert forall e :: e in Opened(live, r.key, r.at, w) ==> e in live || e == Entry(r.key, Bucket(r.at + w, 1));
    } else {
      InvIsWf(live, r.at, w);
      var bucket := Get(live, r.key).value;
      var counted := Bucket(bucket.resetAt, bucket.count + 1);
      var i := PutPresent(live, r.key, counted);
      SameOpening(init + [r], live[i], counted, w);
      assert forall e :: e in live[i := Entry(r.key, counted)] ==> e in live || e == Entry(r.key, counted);
    }
  }

  lemma OpenedNow(init: seq<Request>, r: Request, w: int)
    ensures OpenedBy(init + [r], Entry(r.key, Bucket(r.at + w, 1)), w)
  {
    assert r in init + [r];
  }

  lemma SameOpening(reqs: seq<Request>, e: Entry<string, Bucket>, counted: Bucket, w: int)
    requires OpenedBy(reqs, e, w) && counted.resetAt == e.value.resetAt
    ensures OpenedBy(reqs, Entry(e.key, counted), w)
  {
  }

  lemma InvIsWf(live: Buckets, now: int, w: int)
    requires Inv(live, now, w)
    ensures Wf(live) && forall e :: e in live ==> e.value.resetAt > now
  {
  }

  lemma {:induction false} KeysAreMany(b: Buckets, keys: set<string>)
    requires Wf(b) && forall e :: e in b ==> e.key in keys
    ensures |b| <= |keys|
    decreases |b|
  {
    if b != [] {
      var front, last := b[..|b| - 1], b[|b| - 1];
      assert last in b;
      forall e | e in front ensures e.key in keys - {last.key} {
        assert e in b;
      }
      KeysAreMany(front, keys - {last.key});
    }
  }

  /** While few keys are active, the request that opens a bucket finds room for it. */
  lemma RoomForOneMore(reqs: seq<Request>, r: Request, w: int, max: int)
    requires Clocked(reqs + [r]) && w > 0
    requires |RecentKeys(reqs + [r], r.at - w)| <= MAX_RATE_LIMIT_BUCKETS
    requires Get(Prune(After(reqs, w, max), r.at), r.key).None?
    ensures |Prune(After(reqs, w, max), r.at)| < MAX_RATE_LIMIT_BUCKETS
  {
    hide After, Prune, Get, Inv;
    var b, live, keys := After(reqs, w, max), Prune(After(reqs, w, max), r.at), RecentKeys(reqs + [r], r.at - w);
    var before := BeforeNext(reqs, r, w, max);
    var cut := PruningGivesInv(b, before, r.at, w);
    InvIsWf(live, r.at, w);
    ClockedInit(reqs, r);
    BucketsWereOpened(reqs, w, max);
    forall e | e in live ensures e.key in keys - {r.key} {
      assert e in b;
      var o :| o in reqs && o.key == e.key && o.at == e.value.resetAt - w;
      assert o in reqs + [r];
      var i :| 0 <= i < |live| && live[i] == e;
      assert Has(live, e.key);
    }
    KeysAreMany(live, keys - {r.key});
    assert r in reqs + [r] && r.key in keys;
  }

  lemma ClockedInit(reqs: seq<Request>, r: Request)
    requires Clocked(reqs + [r])
    ensures Clocked(reqs)
  {
    assert forall i :: 0 <= i < |reqs| ==> (reqs + [r])[i] == reqs[i];
  }

  /** Evicting takes a full map, so few active keys mean that nothing is evicted. */
  lemma FewKeysAreNeverEvicted(reqs: seq<Request>, w: int, max: int, k: string)
    requires Clocked(reqs) && w > 0 && FewKeys(reqs, w)
    ensures NeverEvicted(reqs, w, max, k)
  {
    hide After, Evicts, Clocked, FewKeys, RecentKeys;
    forall i | 0 <= i < |reqs| ensures !Evicts(After(reqs[..i], w, max), reqs[i], w, max, k) {
      ClockedPrefix(reqs, i);
      FewKeysAt(reqs, w, i);
      NoEviction(reqs[..i], reqs[i], w, max, k);
    }
  }

  lemma FewKeysAt(reqs: seq<Request>, w: int, i: nat)
    requires FewKeys(reqs, w) && i < |reqs|
    ensures |RecentKeys(reqs[..i] + [reqs[i]], reqs[i].at - w)| <= MAX_RATE_LIMIT_BUCKETS
  {
    hide RecentKeys;
    assert reqs[..i + 1] == reqs[..i] + [reqs[i]];
  }

  lemma ClockedPrefix(reqs: seq<Request>, i: nat)
    requires Clocked(reqs) && i < |reqs|
    ensures Clocked(reqs[..i] + [reqs[i]])
  {
    assert reqs[..i] + [reqs[i]] == reqs[..i + 1];
  }

  lemma NoEviction(reqs: seq<Request>, r: Request, w: int, max: int, k: string)
    requires Clocked(reqs + [r]) && w > 0 && |RecentKeys(reqs + [r], r.at - w)| <= MAX_RATE_LIMIT_BUCKETS
    ensures !Evicts(After(reqs, w, max), r, w, max, k)
  {
    hide After, Prune, Get, Hit, Inv, RecentKeys, Put;
    var b, live := After(reqs, w, max), Prune(After(reqs, w, max), r.at);
    var before := BeforeNext(reqs, r, w, max);
    HitCases(b, before, r, w, max);
    InvIsWf(live, r.at, w);
    if Get(live, r.key).None? {
      RoomForOneMore(reqs, r, w, max);
      OpeningKeepsInv(live, r.key, r.at, w);
      GetAfterPut(live, r.key, Bucket(r.at + w, 1), k);
    } else {
      var bucket := Get(live, r.key).value;
      GetAfterPut(live, r.key, Bucket(bucket.resetAt, bucket.count + 1), k);
    }
  }

  /** The promise of the limiter on what a caller can see: few active keys, and every key is bounded. */
  lemma FewKeysAreBounded(reqs: seq<Request>, k: string, lo: int, w: int, max: nat)
    requires Clocked(reqs) && w > 0 && max >= 1 && FewKeys(reqs, w)
    ensures Passed(reqs, k, lo, w, max) <= MostAdmitted(w, max)
  {
    hide Passed, NeverEvicted, FewKeys, Clocked;
    FewKeysAreNeverEvicted(reqs, w, max, k);
    LimiterBound(reqs, k, lo, w, max);
  }

  // ---------------------------------------------------------------- evictions and the API variant

  /** An eviction takes the live bucket closest to reset, and only when the map is full. */
  lemma EvictionTakesClosestToReset(reqs: seq<Request>, r: Request, w: int, max: int, k: string)
    requires Clocked(reqs + [r]) && w > 0 && Evicts(After(reqs, w, max), r, w, max, k)
    ensures var live := Prune(After(reqs, w, max), r.at);
            && |live| == 10000
            && Get(live, k).Some?
            && Get(After(reqs + [r], w, max), r.key) == Some(Bucket(r.at + w, 1))
            && forall i :: 0 <= i < |live| ==> Get(live, k).value.resetAt <= live[i].value.resetAt
  {
    hide Prune, Put, Get, After;
    var b, live := After(reqs, w, max), Prune(After(reqs, w, max), r.at);
    assert (reqs + [r])[..|reqs|] == reqs && (reqs + [r])[|reqs|] == r;
    AfterSnoc(reqs, r, w, max);
    var before := BeforeNext(reqs, r, w, max);
    HitCases(b, before, r, w, max);
    CountsArePositive(live, r.at, w);
    if Get(live, r.key).Some? {
      var bucket := Get(live, r.key).value;
      GetAfterPut(live, r.key, Bucket(bucket.resetAt, bucket.count + 1), k);
    } else {
      OpenForKey(live, r.key, r.at, w, r.key);
      var grown := live + [Entry(r.key, Bucket(r.at + w, 1))];
      var i :| 0 <= i < |live| && live[i] == Entry(k, Get(live, k).value);
      assert grown[i] == live[i];
      if |live| < MAX_RATE_LIMIT_BUCKETS || i > 0 {
        OpenKeepsOthers(live, r.key, r.at, w, i);
      }
    }
  }

  lemma AfterSnoc(reqs: seq<Request>, r: Request, w: int, max: int)
    ensures After(reqs + [r], w, max) == Hit(After(reqs, w, max), r.key, r.at, w, max).buckets
  {
    assert (reqs + [r])[..|reqs|] == reqs;
  }

  lemma BeforeNext(reqs: seq<Request>, r: Request, w: int, max: int) returns (before: int)
    requires Clocked(reqs + [r]) && w > 0
    ensures before <= r.at && r.key != "" && Inv(After(reqs, w, max), before, w)
  {
    hide Hit, Inv;
    assert (reqs + [r])[|reqs|] == r;
    assert forall i :: 0 <= i < |reqs| ==> reqs[i] == (reqs + [r])[i];
    before := r.at;
    if reqs != [] {
      before := reqs[|reqs| - 1].at;
      HistoryKeepsInv(reqs, w, max);
    } else {
      EmptyIsInv(before, w);
    }
  }

  lemma OpenKeepsOthers(live: Buckets, key: string, now: int, w: int, i: nat)
    requires Inv(live, now, w) && Get(live, key).None? && w > 0 && key != "" && i < |live|
    requires |live| < MAX_RATE_LIMIT_BUCKETS || i > 0
    ensures Get(Opened(live, key, now, w), live[i].key) == Some(live[i].value)
  {
    hide Put, Get;
    OpeningKeepsInv(live, key, now, w);
    var result := Opened(live, key, now, w);
    var j := if |live| < MAX_RATE_LIMIT_BUCKETS then i else i - 1;
    assert result[j] == live[i];
    GetIs(result, j);
  }

  // ---------------------------------------------------------------- the API variant

  datatype ApiCall = ApiCall(request: nat, hit: Request)

  datatype ApiState = ApiState(counted: set<nat>, buckets: Buckets)

  function ApiAfter(calls: seq<ApiCall>, w: int, max: int): ApiState {
    if calls == [] then ApiState({}, [])
    else
      var s, c := ApiAfter(calls[..|calls| - 1], w, max), calls[|calls| - 1];
      var answer := ApiHit(s.counted, s.buckets, c.request, c.hit.key, c.hit.at, w, max);
      ApiState(answer.counted, answer.buckets)
  }

  /** The first call of every request object. */
  function FirstCalls(calls: seq<ApiCall>): seq<Request> {
    if calls == [] then []
    else
      var init, c := calls[..|calls| - 1], calls[|calls| - 1];
      FirstCalls(init) + if Called(init, c.request) then [] else [c.hit]
  }

  predicate Called(calls: seq<ApiCall>, request: nat) {
    exists i | 0 <= i < |calls| :: calls[i].request == request
  }

  /** The API limiter is the limiter on first calls: a request object is counted at most once. */
  lemma {:induction false} ApiCountsRequestsOnce(calls: seq<ApiCall>, w: int, max: int)
    ensures ApiAfter(calls, w, max).buckets == After(FirstCalls(calls), w, max)
    ensures forall request :: request in ApiAfter(calls, w, max).counted <==> Called(calls, request)
  {
    hide Hit;
    if calls != [] {
      var init, c := calls[..|calls| - 1], calls[|calls| - 1];
      ApiCountsRequestsOnce(init, w, max);
      forall request ensures Called(calls, request) <==> Called(init, request) || request == c.request {
        CalledSnoc(init, c, request);
        assert init + [c] == calls;
      }
      if Called(init, c.request) {
        assert FirstCalls(calls) == FirstCalls(init) + [] == FirstCalls(init);
      } else {
        AfterSnoc(FirstCalls(init), c.hit, w, max);
      }
    }
  }

  /** A request object passes every time after the first, and the first time as the limiter says. */
  lemma RepeatedCallPasses(counted: set<nat>, b: Buckets, request: nat, key: string, now: int, w: int, max: int)
    ensures ApiHit(counted, b, request, key, now, w, max).limited <==>
              request !in counted && Hit(b, key, now, w, max).limited
    ensures request in counted ==> ApiHit(counted, b, request, key, now, w, max).buckets == b
  {
  }

  lemma CalledSnoc(calls: seq<ApiCall>, c: ApiCall, request: nat)
    ensures Called(calls + [c], request) <==> Called(calls, request) || request == c.request
  {
    var all := calls + [c];
    assert all[|calls|] == c;
    assert forall i :: 0 <= i < |calls| ==> all[i] == calls[i];
  }
}
