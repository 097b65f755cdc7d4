/**
 `httpFetch` up to the response, with its redirect loop: packages/capability-sdk/src/primitives/http.ts
 and `evaluateNetwork` of policy.ts. URL parsing, DNS, the test for private hosts, the secret and the
 server's answers are oracles, so every statement holds for all of them.
 */
module HttpFetch {
  import opened Wrappers
  import opened Sequences
  import opened JsMap

  type Record = JsMap<string, string>

  datatype Url = Url(href: string, protocol: string, hostname: string, origin: string)

  datatype Response = Response(status: int, location: Option<string>, content: nat)

  datatype Answer = Answered(response: Response) | Aborted | Broken

  /** The n-th DNS lookup and the n-th request are answered by `dns(n)` and `answer(n)`. */
  datatype Env = Env(
    parse: (string, Option<Url>) -> Option<Url>,
    isPrivate: string -> bool,
    dns: nat -> Option<seq<string>>,
    answer: nat -> Answer)

  /** `ownFetch` is `fetch_impl`; `allow_private` and `allowed_methods` join the two places each can come from. */
  datatype Context = Context(
    allowed_hosts: Option<seq<string>>,
    denied_hosts: Option<seq<string>>,
    allow_private: bool,
    allowed_methods: seq<string>,
    default_redirect_limit: int,
    ownFetch: bool)

  datatype Auth = Auth(header: Option<string>, scheme: Option<string>, secret: Option<string>)

  datatype Input = Input(
    url: string,
    method_: Option<string>,
    headers: Record,
    body: Option<string>,
    redirect_limit: Option<int>,
    allowed_hosts: Option<seq<string>>,
    denied_hosts: Option<seq<string>>,
    auth: Option<Auth>,
    allow_cookies: bool)

  datatype Outcome =
    | Returned(response: Response)
    | InvalidUrl
    | BadLocation
    | Denied
    | MethodNotAllowed
    | SecretMissing
    | LookupFailed
    | TimedOut
    | NetworkError
    | RedirectLimitExceeded

  datatype Request = Request(url: Url, method_: string, body: Option<string>, headers: Record)

  /** The requests sent, in order, and how the call ends. */
  datatype Run = Run(requests: seq<Request>, outcome: Outcome)

  // ---------------------------------------------------------------- headers

  /**
   `toLowerCase`, exact on text that may equal an ASCII name: besides A-Z only the Kelvin sign yields an ASCII
   letter.
   */
  function LowerChar(c: char): char {
    if 'A' <= c <= 'Z' then (c as int + 32) as char else if c == '\U{212A}' then 'k' else c
  }

  function Lower(s: string): (r: string)
    ensures |r| == |s|
  {
    seq(|s|, i requires 0 <= i < |s| => LowerChar(s[i]))
  }

  predicate Sensitive(name: string) {
    Lower(name) in ["authorization", "cookie", "proxy-authorization", "x-api-key"]
  }

  const Kept := (e: Entry<string, string>) => !Sensitive(e.key)
  const NotCookie := (e: Entry<string, string>) => Lower(e.key) != "cookie"

  function Stripped(headers: Record): Record {
    Filter(headers, Kept)
  }

  lemma {:induction false} DeleteAfter(front: Record, e: Entry<string, string>, rest: Record)
    requires !Has(front, e.key)
    ensures Delete(front + [e] + rest, e.key) == front + rest
    decreases |front|
  {
    if front == [] {
      assert front + [e] + rest == [e] + rest;
      assert ([e] + rest)[1..] == rest;
      assert front + rest == rest;
    } else {
      var more := front[1..];
      assert front[0].key != e.key;
      assert front == [front[0]] + more;
      OtherKeyFirst(front[0], more, e.key);
      hide Has;
      DeleteAfter(more, e, rest);
      DeletePast(front[0], more + [e] + rest, e.key);
      assert front + [e] + rest == [front[0]] + (more + [e] + rest);
      Reassociate([front[0]], more, rest);
    }
  }

  lemma DeletePast(first: Entry<string, string>, rest: Record, key: string)
    requires first.key != key
    ensures Delete([first] + rest, key) == [first] + Delete(rest, key)
  {
    assert ([first] + rest)[1..] == rest;
  }

  lemma FilteredLacks(headers: Record, i: nat, keep: Entry<string, string> -> bool)
    requires Wf(headers) && i < |headers|
    ensures !Has(Filter(headers[..i], keep), headers[i].key)
  {
    var front := Filter(headers[..i], keep);
    forall j | 0 <= j < |front| ensures front[j].key != headers[i].key {
      FilterMembers(headers[..i], keep, front[j]);
      var k :| 0 <= k < i && headers[..i][k] == front[j];
    }
  }

  /** A plain object of header values. */
  class HeaderRecord {
    var entries: Record

    constructor (headers: Record)
      ensures entries == headers
    {
      entries := headers;
    }

    method StripSensitiveHeaders()
      requires Wf(entries)
      modifies this
      ensures entries == Stripped(old(entries))
    {
      hide Sensitive, Filter, Delete;
      var keys := entries;
      var i := 0;
      SweepStarts(keys, Kept);
      while i < |keys|
        invariant 0 <= i <= |keys|
        invariant entries == Filter(keys[..i], Kept) + keys[i..]
      {
        SweepStep(keys, i, Kept);
        if Sensitive(keys[i].key) {
          entries := Delete(entries, keys[i].key);
        }
        i := i + 1;
      }
      SweepEnds(keys, Kept);
    }

    method DropCookies()
      requires Wf(entries)
      modifies this
      ensures entries == Filter(old(entries), NotCookie)
    {
      hide Filter, Delete, Lower;
      var keys := entries;
      var i := 0;
      SweepStarts(keys, NotCookie);
      while i < |keys|
        invariant 0 <= i <= |keys|
        invariant entries == Filter(keys[..i], NotCookie) + keys[i..]
      {
        SweepStep(keys, i, NotCookie);
        if Lower(keys[i].key) == "cookie" {
          entries := Delete(entries, keys[i].key);
        }
        i := i + 1;
      }
      SweepEnds(keys, NotCookie);
    }
  }

  lemma SweepStarts(keys: Record, keep: Entry<string, string> -> bool)
    ensures Filter(keys[..0], keep) + keys[0..] == keys
  {
    assert keys[..0] == [];
  }

  /** Deleting the i-th key, or leaving it, when the keys before it have been swept. */
  lemma SweepStep(keys: Record, i: nat, keep: Entry<string, string> -> bool)
    requires Wf(keys) && i < |keys|
    ensures var swept := Filter(keys[..i], keep) + keys[i..];
            (Filter(keys[..i + 1], keep) + keys[i + 1..] == if keep(keys[i]) then swept else Delete(swept, keys[i].key))
  {
    hide Filter, Delete;
    var e, front := keys[i], Filter(keys[..i], keep);
    assert keys[..i + 1] == keys[..i] + [e] && keys[i..] == [e] + keys[i + 1..];
    FilterSnoc(keys[..i], e, keep);
    Reassociate(front, [e], keys[i + 1..]);
    if !keep(e) {
      FilteredLacks(keys, i, keep);
      DeleteAfter(front, e, keys[i + 1..]);
      assert front + [] == front;
    }
  }

  lemma SweepEnds(keys: Record, keep: Entry<string, string> -> bool)
    ensures Filter(keys[..|keys|], keep) + keys[|keys|..] == Filter(keys, keep)
  {
    assert keys[..|keys|] == keys && keys[|keys|..] == [];
  }

  lemma {:induction false} FilterKeepsWf(headers: Record, keep: Entry<string, string> -> bool)
    requires Wf(headers)
    ensures Wf(Filter(headers, keep))
  {
    if headers != [] {
      var front := headers[..|headers| - 1];
      FilterKeepsWf(front, keep);
      FilteredLacks(headers, |front|, keep);
    }
  }

  // ---------------------------------------------------------------- policy

  function OrElse(a: Option<seq<string>>, b: Option<seq<string>>): seq<string> {
    if a.Some? then a.value else if b.Some? then b.value else []
  }

  /** `evaluateNetwork` does not deny. */
  predicate PolicyAllows(env: Env, c: Context, input: Input, url: Url) {
    var allowedHosts := OrElse(input.allowed_hosts, c.allowed_hosts);
    var deniedHosts := OrElse(input.denied_hosts, c.denied_hosts);
    && url.hostname !in deniedHosts
    && (|allowedHosts| > 0 ==> url.hostname in allowedHosts)
    && (env.isPrivate(url.hostname) ==> c.allow_private)
  }

  predicate HttpScheme(url: Url) {
    url.protocol == "http:" || url.protocol == "https:"
  }

  function ParseAllowedUrl(env: Env, value: string): Result<Url, Outcome> {
    var url := env.parse(value, None);
    if url.None? then Err(InvalidUrl) else if !HttpScheme(url.value) then Err(Denied) else Ok(url.value)
  }

  /** `assertDnsPolicy` before the n-th request: why the request is not sent, if it is not. */
  function DnsPolicy(env: Env, c: Context, url: Url, n: nat): Option<Outcome> {
    if c.ownFetch || c.allow_private then None
    else if env.isPrivate(url.hostname) then Some(Denied)
    else
      var records := env.dns(n);
      if records.None? then Some(LookupFailed)
      else if exists a :: a in records.value && env.isPrivate(a) then Some(Denied)
      else None
  }

  predicate IsRedirect(r: Response) {
    300 <= r.status < 400 && r.location.Some? && r.location.value != ""
  }

  /** The URL that a redirect leads to, checked like the first one. */
  function NextUrl(env: Env, c: Context, input: Input, current: Url, location: string): Result<Url, Outcome> {
    var next := env.parse(location, Some(current));
    if next.None? then Err(BadLocation)
    else
      var allowed := ParseAllowedUrl(env, next.value.href);
      if allowed.Err? then Err(allowed.error)
      else if !PolicyAllows(env, c, input, next.value) then Err(Denied)
      else Ok(next.value)
  }

  // ---------------------------------------------------------------- the redirect loop

  function MethodOf(input: Input): string {
    if input.method_.Some? then input.method_.value else "GET"
  }

  function HeadersAfter(headers: Record, current: Url, next: Url): Record {
    if next.origin != current.origin then Stripped(headers) else headers
  }

  function Cons(r: Request, run: Run): Run {
    Run([r] + run.requests, run.outcome)
  }

  /** The rest of the loop, when `n` requests have been sent. */
  function Follow(env: Env, c: Context, input: Input, limit: int, current: Url, headers: Record, n: nat): Run
    decreases if n > limit then 0 else limit + 1 - n
  {
    if n > limit then Run([], RedirectLimitExceeded)
    else if DnsPolicy(env, c, current, n).Some? then Run([], DnsPolicy(env, c, current, n).value)
    else
      var request := Request(current, MethodOf(input), input.body, headers);
      match env.answer(n)
      case Aborted => Run([request], TimedOut)
      case Broken => Run([request], NetworkError)
      case Answered(response) =>
        if !IsRedirect(response) then Run([request], Returned(response))
        else
          var next := NextUrl(env, c, input, current, response.location.value);
          if next.Err? then Run([request], next.error)
          else Cons(request,
              Follow(env, c, input, limit, next.value, HeadersAfter(headers, current, next.value), n + 1))
  }

  function Before(requests: seq<Request>, run: Run): Run {
    Run(requests + run.requests, run.outcome)
  }

  lemma BeforeCons(requests: seq<Request>, r: Request, run: Run)
    ensures Before(requests, Cons(r, run)) == Before(requests + [r], run)
  {
  }

  lemma BeforeEnd(requests: seq<Request>, r: Request, o: Outcome)
    ensures Before(requests, Run([r], o)) == Run(requests + [r], o)
    ensures Before(requests, Run([], o)) == Run(requests, o)
  {
  }

  method FetchWithRedirects(env: Env, c: Context, input: Input, limit: int, url: Url, inputHeaders: Record)
    returns (run: Run)
    requires Wf(inputHeaders)
    ensures run == Follow(env, c, input, limit, url, inputHeaders, 0)
  {
    hide NextUrl, DnsPolicy, Before, Cons, Filter, Sensitive;
    var current := url;
    var headers := new HeaderRecord(inputHeaders);
    var requests: seq<Request> := [];
    ghost var all := Follow(env, c, input, limit, url, inputHeaders, 0);
    BeforeNothing(all);
    var redirect := 0;
    while redirect <= limit
      invariant 0 <= redirect && (limit >= 0 ==> redirect <= limit + 1) && (limit < 0 ==> redirect == 0)
      invariant fresh(headers) && Wf(headers.entries)
      invariant all == Before(requests, Follow(env, c, input, limit, current, headers.entries, redirect))
    {
      var refused := DnsPolicy(env, c, current, redirect);
      var request := Request(current, MethodOf(input), input.body, headers.entries);
      ghost var rest := Follow(env, c, input, limit, current, headers.entries, redirect);
      BeforeEnd(requests, request, rest.outcome);
      if refused.Some? {
        return Run(requests, refused.value);
      }
      var answer := env.answer(redirect);
      if answer.Aborted? {
        return Run(requests + [request], TimedOut);
      }
      if answer.Broken? {
        return Run(requests + [request], NetworkError);
      }
      if !IsRedirect(answer.response) {
        return Run(requests + [request], Returned(answer.response));
      }
      var next := NextUrl(env, c, input, current, answer.response.location.value);
      if next.Err? {
        return Run(requests + [request], next.error);
      }
      BeforeCons(requests, request,
          Follow(env, c, input, limit, next.value, HeadersAfter(headers.entries, current, next.value), redirect + 1));
      var previous := current;
      current := next.value;
      requests := requests + [request];
      if current.origin != previous.origin {
        FilterKeepsWf(headers.entries, Kept);
        headers.StripSensitiveHeaders();
      }
      redirect := redirect + 1;
    }
    BeforeEnd(requests, Request(current, "", None, []), RedirectLimitExceeded);
    run := Run(requests, RedirectLimitExceeded);
  }

  lemma BeforeNothing(run: Run)
    ensures Before([], run) == run
  {
  }

  // ---------------------------------------------------------------- the whole call

  function WithAuth(headers: Record, auth: Option<Auth>): Option<Record> {
    if auth.None? then Some(headers)
    else if auth.value.secret.None? then None
    else
      var header := if auth.value.header.Some? then auth.value.header.value else "Authorization";
      var scheme := if auth.value.scheme.Some? then auth.value.scheme.value else "Bearer";
      Some(Put(headers, header, scheme + " " + auth.value.secret.value))
  }

  function FirstHeaders(input: Input, withAuth: Record): Record {
    if input.allow_cookies then withAuth else Filter(withAuth, NotCookie)
  }

  function LimitOf(c: Context, input: Input): int {
    if input.redirect_limit.Some? then input.redirect_limit.value else c.default_redirect_limit
  }

  function Fetch(env: Env, c: Context, input: Input): Run {
    var url := ParseAllowedUrl(env, input.url);
    if url.Err? then Run([], url.error)
    else if MethodOf(input) !in c.allowed_methods then Run([], MethodNotAllowed)
    else if !PolicyAllows(env, c, input, url.value) then Run([], Denied)
    else
      var withAuth := WithAuth(input.headers, input.auth);
      if withAuth.None? then Run([], SecretMissing)
      else Follow(env, c, input, LimitOf(c, input), url.value, FirstHeaders(input, withAuth.value), 0)
  }

  method HttpFetch(env: Env, c: Context, input: Input) returns (run: Run)
    requires Wf(input.headers)
    ensures run == Fetch(env, c, input)
  {
    hide Filter, Follow, Put, Lower;
    var url := ParseAllowedUrl(env, input.url);
    if url.Err? {
      return Run([], url.error);
    }
    if MethodOf(input) !in c.allowed_methods {
      return Run([], MethodNotAllowed);
    }
    if !PolicyAllows(env, c, input, url.value) {
      return Run([], Denied);
    }
    var withAuth := WithAuth(input.headers, input.auth);
    if withAuth.None? {
      return Run([], SecretMissing);
    }
    AuthKeepsWf(input.headers, input.auth);
    var headers := new HeaderRecord(withAuth.value);
    if !input.allow_cookies {
      FilterKeepsWf(withAuth.value, NotCookie);
      headers.DropCookies();
    }
    run := FetchWithRedirects(env, c, input, LimitOf(c, input), url.value, headers.entries);
  }

  lemma AuthKeepsWf(headers: Record, auth: Option<Auth>)
    requires Wf(headers)
    ensures WithAuth(headers, auth).Some? ==> Wf(WithAuth(headers, auth).value)
  {
    hide Put;
    if auth.Some? && auth.value.secret.Some? {
      PutKeepsWf(headers, if auth.value.header.Some? then auth.value.header.value else "Authorization",
                 (if auth.value.scheme.Some? then auth.value.scheme.value else "Bearer")
                 + " " + auth.value.secret.value);
    }
  }

  // ---------------------------------------------------------------- what the loop promises

  /** A URL written out and parsed again is that URL, as the URL Standard promises of its serialiser. */
  ghost predicate UrlsRoundTrip(env: Env) {
    forall s, base :: env.parse(s, base).Some? ==> env.parse(env.parse(s, base).value.href, None) == env.parse(s, base)
  }

  /** Every request goes to an http(s) URL that the network policy allows, after a look at its addresses. */
  ghost predicate SafeRequests(env: Env, c: Context, input: Input, requests: seq<Request>, n: nat) {
    forall i :: 0 <= i < |requests| ==>
      && HttpScheme(requests[i].url) && PolicyAllows(env, c, input, requests[i].url)
      && DnsPolicy(env, c, requests[i].url, n + i).None?
      && requests[i].method_ == MethodOf(input) && requests[i].body == input.body
  }

  lemma SafeCons(env: Env, c: Context, input: Input, r: Request, rest: seq<Request>, n: nat)
    requires SafeRequests(env, c, input, [r], n) && SafeRequests(env, c, input, rest, n + 1)
    ensures SafeRequests(env, c, input, [r] + rest, n)
  {
    hide PolicyAllows, DnsPolicy;
    forall i | 0 <= i < |[r] + rest|
      ensures HttpScheme(([r] + rest)[i].url) && PolicyAllows(env, c, input, ([r] + rest)[i].url)
      ensures DnsPolicy(env, c, ([r] + rest)[i].url, n + i).None?
      ensures ([r] + rest)[i].method_ == MethodOf(input) && ([r] + rest)[i].body == input.body
    {
      if i > 0 {
        assert ([r] + rest)[i] == rest[i - 1];
      }
    }
  }

  lemma NextUrlIsSafe(env: Env, c: Context, input: Input, current: Url, location: string)
    requires UrlsRoundTrip(env) && NextUrl(env, c, input, current, location).Ok?
    ensures var u := NextUrl(env, c, input, current, location).value; HttpScheme(u) && PolicyAllows(env, c, input, u)
  {
    hide PolicyAllows;
  }

  lemma {:induction false} EveryRequestIsSafe(env: Env, c: Context, input: Input, limit: int, url: Url,
                                              headers: Record, n: nat)
    requires UrlsRoundTrip(env) && HttpScheme(url) && PolicyAllows(env, c, input, url)
    ensures SafeRequests(env, c, input, Follow(env, c, input, limit, url, headers, n).requests, n)
    decreases if n > limit then 0 else limit + 1 - n
  {
    hide PolicyAllows, UrlsRoundTrip, NextUrl, DnsPolicy;
    var run := Follow(env, c, input, limit, url, headers, n);
    if run.requests != [] && Hop(env, c, input, url, n).Some? {
      var next := Hop(env, c, input, url, n).value;
      NextUrlIsSafe(env, c, input, url, env.answer(n).response.location.value);
      EveryRequestIsSafe(env, c, input, limit, next, HeadersAfter(headers, url, next), n + 1);
      SafeCons(env, c, input, run.requests[0],
          Follow(env, c, input, limit, next, HeadersAfter(headers, url, next), n + 1).requests, n);
    }
  }

  /** Where the n-th answer sends the client, if it does. */
  function Hop(env: Env, c: Context, input: Input, current: Url, n: nat): Option<Url> {
    var a := env.answer(n);
    if a.Answered? && IsRedirect(a.response) then
      var next := NextUrl(env, c, input, current, a.response.location.value);
      if next.Ok? then Some(next.value) else None
    else None
  }

  /** Follows one hop at a time; all that the proofs below need of the loop. */
  lemma FollowHop(env: Env, c: Context, input: Input, limit: int, url: Url, headers: Record, n: nat)
    ensures var run := Follow(env, c, input, limit, url, headers, n);
            (if n > limit || DnsPolicy(env, c, url, n).Some? then run.requests == []
             else if Hop(env, c, input, url, n).None? then
               run.requests == [Request(url, MethodOf(input), input.body, headers)]
             else run == Cons(Request(url, MethodOf(input), input.body, headers),
                              Follow(env, c, input, limit, Hop(env, c, input, url, n).value,
                                     HeadersAfter(headers, url, Hop(env, c, input, url, n).value), n + 1)))
  {
    hide NextUrl, DnsPolicy, Stripped;
  }

  /** At most `limit` + 1 requests, none when the limit is negative. */
  lemma {:induction false} RequestsAreBounded(env: Env, c: Context, input: Input, limit: int, url: Url,
                                              headers: Record, n: nat)
    ensures |Follow(env, c, input, limit, url, headers, n).requests| <= if n > limit then 0 else limit + 1 - n
    ensures Follow(env, c, input, limit, url, headers, n).outcome == RedirectLimitExceeded && n <= limit ==>
              |Follow(env, c, input, limit, url, headers, n).requests| == limit + 1 - n
    decreases if n > limit then 0 else limit + 1 - n
  {
    hide NextUrl, PolicyAllows, Stripped;
    FollowHop(env, c, input, limit, url, headers, n);
    if n <= limit && Hop(env, c, input, url, n).Some? {
      var next := Hop(env, c, input, url, n).value;
      RequestsAreBounded(env, c, input, limit, next, HeadersAfter(headers, url, next), n + 1);
    }
    NoOtherLimit(env, c, input, limit, url, headers, n);
  }

  lemma NoOtherLimit(env: Env, c: Context, input: Input, limit: int, url: Url, headers: Record, n: nat)
    ensures Follow(env, c, input, limit, url, headers, n).outcome == RedirectLimitExceeded && n <= limit
            ==> DnsPolicy(env, c, url, n).None? && Hop(env, c, input, url, n).Some?
  {
    hide Stripped;
  }

  lemma ReturnedNowOrLater(env: Env, c: Context, input: Input, limit: int, url: Url, headers: Record, n: nat)
    ensures var run := Follow(env, c, input, limit, url, headers, n);
            (run.outcome.Returned? && Hop(env, c, input, url, n).None?
             ==> env.answer(n) == Answered(run.outcome.response) && !IsRedirect(run.outcome.response))
    ensures Follow(env, c, input, limit, url, headers, n).outcome.Returned? ==>
        n <= limit && DnsPolicy(env, c, url, n).None?
  {
    hide Stripped, PolicyAllows;
  }

  /** A response that is returned answers the last request and is no redirect with a Location. */
  lemma {:induction false} ReturnedIsNoRedirect(env: Env, c: Context, input: Input, limit: int, url: Url,
                                                headers: Record, n: nat)
    requires Follow(env, c, input, limit, url, headers, n).outcome.Returned?
    ensures var run := Follow(env, c, input, limit, url, headers, n);
            (run.requests != []
            && env.answer(n + |run.requests| - 1) == Answered(run.outcome.response)
            && !IsRedirect(run.outcome.response))
    decreases if n > limit then 0 else limit + 1 - n
  {
    hide Follow, DnsPolicy, Hop, HeadersAfter, IsRedirect;
    FollowHop(env, c, input, limit, url, headers, n);
    ReturnedNowOrLater(env, c, input, limit, url, headers, n);
    if Hop(env, c, input, url, n).Some? {
      var next := Hop(env, c, input, url, n).value;
      ReturnedIsNoRedirect(env, c, input, limit, next, HeadersAfter(headers, url, next), n + 1);
    }
  }

  predicate Crosses(requests: seq<Request>, i: nat) {
    i + 1 < |requests| && requests[i].url.origin != requests[i + 1].url.origin
  }

  /** Some hop before request `k` led to another origin. */
  ghost predicate Crossed(requests: seq<Request>, k: nat) {
    exists i: nat :: i < k && Crosses(requests, i)
  }

  lemma {:induction false} FilterTwice<T(!new)>(s: seq<T>, keep: T -> bool)
    ensures Filter(Filter(s, keep), keep) == Filter(s, keep)
  {
    if s != [] {
      var front, last := s[..|s| - 1], s[|s| - 1];
      var kept := Filter(front, keep);
      FilterTwice(front, keep);
      FilterSnoc(kept, last, keep);
      assert kept + [] == kept;
    }
  }

  /** The headers of each request: as given until another origin is reached, then without the four sensitive names. */
  lemma {:induction false} HeadersOfEachRequest(env: Env, c: Context, input: Input, limit: int, url: Url,
                                                headers: Record, n: nat, k: nat)
    requires k < |Follow(env, c, input, limit, url, headers, n).requests|
    ensures var requests := Follow(env, c, input, limit, url, headers, n).requests;
            requests[k].headers == if Crossed(requests, k) then Stripped(headers) else headers
    decreases k
  {
    hide Filter, NextUrl, DnsPolicy, Follow;
    FollowHop(env, c, input, limit, url, headers, n);
    var requests := Follow(env, c, input, limit, url, headers, n).requests;
    if k > 0 {
      var next := Hop(env, c, input, url, n).value;
      var after := HeadersAfter(headers, url, next);
      var rest := Follow(env, c, input, limit, next, after, n + 1).requests;
      HeadersOfEachRequest(env, c, input, limit, next, after, n + 1, k - 1);
      FollowHop(env, c, input, limit, next, after, n + 1);
      FilterTwice(headers, Kept);
      CrossedCons(requests[0], rest, k - 1);
    }
  }

  lemma CrossedCons(r: Request, rest: seq<Request>, k: nat)
    requires k < |rest|
    ensures Crossed([r] + rest, k + 1) <==> r.url.origin != rest[0].url.origin || Crossed(rest, k)
  {
    var all := [r] + rest;
    assert Crosses(all, 0) <==> r.url.origin != rest[0].url.origin;
    forall i: nat ensures Crosses(all, i + 1) <==> Crosses(rest, i) {
      assert i < |rest| ==> all[i + 1] == rest[i];
    }
    hide Crosses;
    if Crossed(rest, k) {
      var i: nat :| i < k && Crosses(rest, i);
      assert Crosses(all, i + 1);
    }
    if Crossed(all, k + 1) {
      var i: nat :| i < k + 1 && Crosses(all, i);
      if i > 0 {
        var j: nat := i - 1;
        assert Crosses(all, j + 1);
        assert Crosses(rest, j);
      }
    }
  }

  /** Once another origin is reached, no request carries a sensitive name in any letter case. */
  lemma NothingSensitiveAfterCrossing(env: Env, c: Context, input: Input, limit: int, url: Url, headers: Record,
                                      k: nat, e: Entry<string, string>)
    requires var requests := Follow(env, c, input, limit, url, headers, 0).requests;
             k < |requests| && Crossed(requests, k) && e in requests[k].headers
    ensures !Sensitive(e.key) && e in headers
  {
    hide Follow, Filter, Crossed;
    HeadersOfEachRequest(env, c, input, limit, url, headers, 0, k);
    FilterMembers(headers, Kept, e);
  }

  /** All promises about one call of `httpFetch`. */
  lemma FetchIsSafe(env: Env, c: Context, input: Input)
    requires UrlsRoundTrip(env)
    ensures SafeRequests(env, c, input, Fetch(env, c, input).requests, 0)
    ensures |Fetch(env, c, input).requests| <= if LimitOf(c, input) < 0 then 0 else LimitOf(c, input) + 1
    ensures Fetch(env, c, input).outcome.Returned? ==> !IsRedirect(Fetch(env, c, input).outcome.response)
  {
    hide Follow, PolicyAllows, DnsPolicy, UrlsRoundTrip;
    if Fetch(env, c, input).requests != [] || Fetch(env, c, input).outcome.Returned? {
      var url := ParseAllowedUrl(env, input.url).value;
      var headers := FirstHeaders(input, WithAuth(input.headers, input.auth).value);
      EveryRequestIsSafe(env, c, input, LimitOf(c, input), url, headers, 0);
      RequestsAreBounded(env, c, input, LimitOf(c, input), url, headers, 0);
      if Fetch(env, c, input).outcome.Returned? {
        ReturnedIsNoRedirect(env, c, input, LimitOf(c, input), url, headers, 0);
      }
    }
  }

  /**
   Unless cookies are allowed, no request of the call carries one, whatever the letter case, also not as the
   auth header.
   */
  lemma NoCookieUnlessAllowed(env: Env, c: Context, input: Input, k: nat, e: Entry<string, string>)
    requires !input.allow_cookies && k < |Fetch(env, c, input).requests|
    requires e in Fetch(env, c, input).requests[k].headers
    ensures Lower(e.key) != "cookie"
  {
    hide Follow, PolicyAllows, Filter, Crossed;
    var withAuth := WithAuth(input.headers, input.auth).value;
    var headers := FirstHeaders(input, withAuth);
    HeadersOfEachRequest(env, c, input, LimitOf(c, input), ParseAllowedUrl(env, input.url).value, headers, 0, k);
    FilterMembers(headers, Kept, e);
    FilterMembers(withAuth, NotCookie, e);
  }
}
