/**
 The fixed-window limiter of apps/web/middleware.ts and its variant of apps/web/app/api/http.ts:
 one bucket a key, in a map that keeps insertion order and is capped. The clock, the window and the
 maximum are parameters of a call.
 */
module RateLimiter {
  import opened Wrappers
  import opened Sequences
  import opened JsString
  import opened JsMap

  const MAX_RATE_LIMIT_BUCKETS := 10000

  datatype Bucket = Bucket(resetAt: int, count: nat)

  type Buckets = JsMap<string, Bucket>

  /** The first header that names a client, or a fixed name. */
  function RateLimitKey(forwardedFor: Option<string>, realIp: Option<string>,
                        connectingIp: Option<string>): (key: string)
    ensures key != ""
  {
    var first := if forwardedFor.Some? then Trim(Split(forwardedFor.value, ",")[0]) else "";
    var second := if realIp.Some? then Trim(realIp.value) else "";
    var third := if connectingIp.Some? then Trim(connectingIp.value) else "";
    if first != "" then first else if second != "" then second else if third != "" then third else "anonymous"
  }

  /** Proxies append their addresses: the client is the first, and what comes after it does not change the key. */
  lemma FirstAddressIsTheKey(client: string, proxies: string, realIp: Option<string>, connectingIp: Option<string>)
    requires Trim(client) != "" && Lacks(client, ',')
    ensures RateLimitKey(Some(client + "," + proxies), realIp, connectingIp) == Trim(client)
    ensures RateLimitKey(Some(client), realIp, connectingIp) == Trim(client)
  {
    hide Trim, Find;
    FirstPart(client, proxies);
  }

  predicate IsBlank(header: Option<string>) {
    header.None? || forall c :: c in header.value ==> IsSpace(c)
  }

  /** A header with the client's name between spaces. */
  predicate Gives(header: Option<string>, name: string) {
    header.Some? && Trim(header.value) == name
  }

  lemma PaddedNameIsGiven(before: string, name: string, after: string)
    requires name != "" && !IsSpace(name[0]) && !IsSpace(name[|name| - 1])
    requires (forall c :: c in before ==> IsSpace(c)) && forall c :: c in after ==> IsSpace(c)
    ensures Gives(Some(before + name + after), name)
  {
    TrimDropsSpaces(before, name, after);
  }

  /**
   When the first header names nobody before its first comma, the second one gives the key, then the third;
   without any name all clients share one key.
   */
  lemma KeyFallsBack(forwardedFor: Option<string>, realIp: Option<string>, connectingIp: Option<string>, name: string)
    requires forwardedFor.Some? ==> IsBlank(Some(Split(forwardedFor.value, ",")[0]))
    ensures !IsBlank(realIp) && Gives(realIp, name) ==> RateLimitKey(forwardedFor, realIp, connectingIp) == name
    ensures IsBlank(realIp) && !IsBlank(connectingIp) && Gives(connectingIp, name) ==>
              RateLimitKey(forwardedFor, realIp, connectingIp) == name
    ensures IsBlank(realIp) && IsBlank(connectingIp) ==>
              RateLimitKey(forwardedFor, realIp, connectingIp) == "anonymous"
  {
    hide Trim, Split, IsSpace;
    if forwardedFor.Some? {
      TrimmedToNothingIff(Split(forwardedFor.value, ",")[0]);
    }
    if realIp.Some? {
      TrimmedToNothingIff(realIp.value);
    }
    if connectingIp.Some? {
      TrimmedToNothingIff(connectingIp.value);
    }
  }

  lemma FirstPart(first: string, rest: string)
    requires Lacks(first, ',')
    ensures Split(first + "," + rest, ",")[0] == first && Split(first, ",")[0] == first
  {
    var s := first + "," + rest;
    forall j | 0 <= j < |first| ensures !OccursAt(s, ",", j) {
      OccursOne(s, ',', j);
      assert s[j] == first[j];
    }
    OccursOne(s, ',', |first|);
    FindIs(s, ",", |first|);
    assert s[..|first|] == first;
    SplitUndoesJoin([first], ',');
  }

  function Alive(now: int): Entry<string, Bucket> -> bool {
    (e: Entry<string, Bucket>) => e.value.resetAt > now
  }

  /** Drops from the front while over the cap; an empty key would stop it. */
  function DropOldest(b: Buckets): Buckets {
    if |b| <= MAX_RATE_LIMIT_BUCKETS || b[0].key == "" then b else DropOldest(b[1..])
  }

  function Prune(b: Buckets, now: int): Buckets {
    DropOldest(Filter(b, Alive(now)))
  }

  datatype Answer = Answer(buckets: Buckets, limited: bool)

  /** One request: the buckets after it, and whether it is refused. */
  function Hit(b: Buckets, key: string, now: int, windowMs: int, max: int): Answer {
    var live := Prune(b, now);
    var bucket := Get(live, key);
    if bucket.None? || bucket.value.resetAt <= now then
      Answer(Prune(Put(live, key, Bucket(now + windowMs, 1)), now), false)
    else
      var count := bucket.value.count + 1;
      Answer(Put(live, key, Bucket(bucket.value.resetAt, count)), count > max)
  }

  class Limiter {
    var buckets: Buckets

    constructor ()
      ensures buckets == []
    {
      buckets := [];
    }

    method PruneBuckets(now: int)
      modifies this
      ensures buckets == Prune(old(buckets), now)
    {
      ghost var before := buckets;
      ghost var n := 0;
      var i := 0;
      while i < |buckets|
        invariant 0 <= i <= |buckets| && 0 <= n <= |before|
        invariant buckets[..i] == Filter(before[..n], Alive(now)) && buckets[i..] == before[n..]
        decreases |before| - n
      {
        assert before[..n + 1][..n] == before[..n] && before[n] == buckets[i];
        if buckets[i].value.resetAt <= now {
          buckets := buckets[..i] + buckets[i + 1..];
        } else {
          i := i + 1;
        }
        n := n + 1;
      }
      assert buckets[..i] == buckets && before[..n] == before;
      while |buckets| > MAX_RATE_LIMIT_BUCKETS
        invariant DropOldest(buckets) == Prune(before, now)
      {
        if buckets[0].key == "" {
          break;
        }
        buckets := buckets[1..];
      }
    }

    method RateLimit(key: string, now: int, windowMs: int, max: int) returns (limited: bool)
      modifies this
      ensures Answer(buckets, limited) == Hit(old(buckets), key, now, windowMs, max)
    {
      PruneBuckets(now);
      var bucket := Get(buckets, key);
      if bucket.None? || bucket.value.resetAt <= now {
        buckets := Put(buckets, key, Bucket(now + windowMs, 1));
        PruneBuckets(now);
        return false;
      }
      var count := bucket.value.count + 1;
      buckets := Put(buckets, key, Bucket(bucket.value.resetAt, count));
      limited := count > max;
    }
  }

  /** The variant of the API routes: `counted` stands for the set of request objects. */
  class ApiLimiter {
    const limiter: Limiter
    var counted: set<nat>

    constructor ()
      ensures fresh(limiter) && limiter.buckets == [] && counted == {}
    {
      limiter := new Limiter();
      counted := {};
    }

    method EnforceRateLimit(request: nat, key: string, now: int, windowMs: int, max: int) returns (limited: bool)
      modifies this, limiter
      ensures ApiAnswer(counted, limiter.buckets, limited)
           == ApiHit(old(counted), old(limiter.buckets), request, key, now, windowMs, max)
    {
      if request in counted {
        return false;
      }
      counted := counted + {request};
      limited := limiter.RateLimit(key, now, windowMs, max);
    }
  }

  datatype ApiAnswer = ApiAnswer(counted: set<nat>, buckets: Buckets, limited: bool)

  /** A request object that was counted before passes and changes nothing. */
  function ApiHit(counted: set<nat>, b: Buckets, request: nat, key: string, now: int, windowMs: int,
                  max: int): ApiAnswer {
    if request in counted then ApiAnswer(counted, b, false)
    else
      var answer := Hit(b, key, now, windowMs, max);
      ApiAnswer(counted + {request}, answer.buckets, answer.limited)
  }
}
