/**
 What a call of `httpFetch` sends and how it ends, on the fields of its input, its context and the answers:
 who may be asked, with which headers, where each redirect leads, and why the call stops where it stops.
 */
module HttpRequests {
  import opened Wrappers
  import opened Sequences
  import opened JsMap
  import opened HttpFetch

  // ---------------------------------------------------------------- who may be asked

  /** A list in the input takes the place of the context's. An empty allow list allows every host. */
  predicate HostAllowed(env: Env, c: Context, input: Input, host: string) {
    && (match input.denied_hosts
        case Some(denied) => host !in denied
        case None => c.denied_hosts.None? || host !in c.denied_hosts.value)
    && (match input.allowed_hosts
        case Some(allowed) => allowed == [] || host in allowed
        case None => c.allowed_hosts.None? || c.allowed_hosts.value == [] || host in c.allowed_hosts.value)
    && (!env.isPrivate(host) || c.allow_private)
  }

  /** The look-up before the n-th request finds public addresses only, unless it is not made. */
  predicate AddressesAllowed(env: Env, c: Context, url: Url, n: nat) {
    || c.ownFetch || c.allow_private
    || (!env.isPrivate(url.hostname) && env.dns(n).Some?
        && forall i :: 0 <= i < |env.dns(n).value| ==> !env.isPrivate(env.dns(n).value[i]))
  }

  predicate IsWeb(url: Url) {
    url.protocol == "http:" || url.protocol == "https:"
  }

  lemma HostAllowedIff(env: Env, c: Context, input: Input, url: Url)
    ensures PolicyAllows(env, c, input, url) <==> HostAllowed(env, c, input, url.hostname)
  {
  }

  lemma AddressesAllowedIff(env: Env, c: Context, url: Url, n: nat)
    ensures DnsPolicy(env, c, url, n).None? <==> AddressesAllowed(env, c, url, n)
    ensures DnsPolicy(env, c, url, n).Some? ==>
              DnsPolicy(env, c, url, n).value
              == if !env.isPrivate(url.hostname) && env.dns(n).None? then LookupFailed else Denied
  {
  }

  /** Every request of a call: where it goes, what was looked up before it, and with which method and body. */
  lemma EveryRequestIsAllowed(env: Env, c: Context, input: Input, k: nat)
    requires UrlsRoundTrip(env) && k < |Fetch(env, c, input).requests|
    ensures var r := Fetch(env, c, input).requests[k];
            && IsWeb(r.url) && HostAllowed(env, c, input, r.url.hostname) && AddressesAllowed(env, c, r.url, k)
            && r.method_ == (if input.method_.Some? then input.method_.value else "GET")
            && r.method_ in c.allowed_methods && r.body == input.body
  {
    FetchIsSafe(env, c, input);
    var r := Fetch(env, c, input).requests[k];
    HostAllowedIff(env, c, input, r.url);
    AddressesAllowedIff(env, c, r.url, k);
    hide Follow, PolicyAllows, DnsPolicy, HostAllowed, AddressesAllowed, UrlsRoundTrip, WithAuth;
  }

  // ---------------------------------------------------------------- where redirects lead

  /** The answer is a redirect with a Location. */
  predicate Redirects(a: Answer) {
    a.Answered? && a.response.status / 100 == 3 && a.response.location.Some? && |a.response.location.value| > 0
  }

  lemma RedirectsIff(a: Answer)
    ensures Redirects(a) <==> a.Answered? && IsRedirect(a.response)
  {
  }

  /** Where the answer to the n-th request, sent to `current`, leads: none, if the call ends there. */
  function Target(env: Env, c: Context, input: Input, current: Url, n: nat): Result<Url, Outcome> {
    match env.answer(n)
    case Aborted => Err(TimedOut)
    case Broken => Err(NetworkError)
    case Answered(response) =>
      if !Redirects(env.answer(n)) then Err(Returned(response))
      else
        match env.parse(response.location.value, Some(current))
        case None => Err(BadLocation)
        case Some(next) =>
          match env.parse(next.href, None)
          case None => Err(InvalidUrl)
          case Some(again) =>
            if IsWeb(again) && HostAllowed(env, c, input, next.hostname) then Ok(next) else Err(Denied)
  }

  lemma TargetIsHop(env: Env, c: Context, input: Input, limit: int, url: Url, headers: Record, n: nat)
    requires n <= limit && DnsPolicy(env, c, url, n).None?
    ensures var run, target := Follow(env, c, input, limit, url, headers, n), Target(env, c, input, url, n);
            && (target.Ok? ==> Hop(env, c, input, url, n) == Some(target.value))
            && (target.Err? ==> Hop(env, c, input, url, n) == None && run.outcome == target.error)
  {
    hide PolicyAllows, HostAllowed, Stripped, DnsPolicy;
    RedirectsIff(env.answer(n));
    if Redirects(env.answer(n)) {
      var next := env.parse(env.answer(n).response.location.value, Some(url));
      if next.Some? {
        HostAllowedIff(env, c, input, next.value);
      }
    }
  }

  /** Each request after the first goes where the answer to the one before it leads. */
  lemma {:induction false} RedirectsAreFollowed(env: Env, c: Context, input: Input, limit: int, url: Url,
                                                headers: Record, n: nat, k: nat)
    requires k + 1 < |Follow(env, c, input, limit, url, headers, n).requests|
    ensures var requests := Follow(env, c, input, limit, url, headers, n).requests;
            Target(env, c, input, requests[k].url, n + k) == Ok(requests[k + 1].url)
    decreases k
  {
    hide Follow, DnsPolicy, Target, Hop, HeadersAfter;
    FollowHop(env, c, input, limit, url, headers, n);
    TargetIsHop(env, c, input, limit, url, headers, n);
    var next := Hop(env, c, input, url, n).value;
    var after := HeadersAfter(headers, url, next);
    if k > 0 {
      RedirectsAreFollowed(env, c, input, limit, next, after, n + 1, k - 1);
    } else {
      FollowHop(env, c, input, limit, next, after, n + 1);
    }
  }

  /**
   How the call ends: as the last answer says, unless that leads on. Then the limit is reached, or the addresses
   of the next host are refused.
   */
  ghost predicate EndsBecause(env: Env, c: Context, input: Input, limit: int, last: Url, n: nat, outcome: Outcome) {
    match Target(env, c, input, last, n)
    case Err(o) => outcome == o
    case Ok(next) =>
      if n == limit then outcome == RedirectLimitExceeded
      else
        && !AddressesAllowed(env, c, next, n + 1)
        && outcome == if !env.isPrivate(next.hostname) && env.dns(n + 1).None? then LookupFailed else Denied
  }

  lemma {:induction false} EndIsDue(env: Env, c: Context, input: Input, limit: int, url: Url, headers: Record, n: nat)
    requires Follow(env, c, input, limit, url, headers, n).requests != []
    ensures var run := Follow(env, c, input, limit, url, headers, n);
            var k := |run.requests|;
            EndsBecause(env, c, input, limit, run.requests[k - 1].url, n + k - 1, run.outcome)
    decreases if n > limit then 0 else limit + 1 - n
  {
    hide DnsPolicy, Target, Hop, HeadersAfter, AddressesAllowed, NextUrl, Follow;
    FollowHop(env, c, input, limit, url, headers, n);
    TargetIsHop(env, c, input, limit, url, headers, n);
    if Hop(env, c, input, url, n).Some? {
      var next := Hop(env, c, input, url, n).value;
      var after := HeadersAfter(headers, url, next);
      if Follow(env, c, input, limit, next, after, n + 1).requests != [] {
        EndIsDue(env, c, input, limit, next, after, n + 1);
      } else {
        NotSent(env, c, input, limit, next, after, n + 1);
        AddressesAllowedIff(env, c, next, n + 1);
      }
    }
  }

  lemma NotSent(env: Env, c: Context, input: Input, limit: int, url: Url, headers: Record, n: nat)
    ensures var run := Follow(env, c, input, limit, url, headers, n);
            run.requests == [] <==> n > limit || DnsPolicy(env, c, url, n).Some?
    ensures n > limit ==> Follow(env, c, input, limit, url, headers, n).outcome == RedirectLimitExceeded
    ensures n <= limit && DnsPolicy(env, c, url, n).Some? ==>
              Follow(env, c, input, limit, url, headers, n).outcome == DnsPolicy(env, c, url, n).value
  {
    hide DnsPolicy, NextUrl, Stripped;
  }

  // ---------------------------------------------------------------- the whole call

  function LimitIn(c: Context, input: Input): int {
    if input.redirect_limit.None? then c.default_redirect_limit else input.redirect_limit.value
  }

  /** Why a call sends nothing, or none if it sends a first request: the checks in order. */
  function Refusal(env: Env, c: Context, input: Input): Option<Outcome> {
    match env.parse(input.url, None)
    case None => Some(InvalidUrl)
    case Some(url) =>
      if !IsWeb(url) then Some(Denied)
      else if (if input.method_.Some? then input.method_.value else "GET") !in c.allowed_methods
      then Some(MethodNotAllowed)
      else if !HostAllowed(env, c, input, url.hostname) then Some(Denied)
      else if input.auth.Some? && input.auth.value.secret.None? then Some(SecretMissing)
      else if LimitIn(c, input) < 0 then Some(RedirectLimitExceeded)
      else if AddressesAllowed(env, c, url, 0) then None
      else if !env.isPrivate(url.hostname) && env.dns(0).None? then Some(LookupFailed)
      else Some(Denied)
  }

  /** A call sends nothing exactly when it is refused, and then says why. */
  lemma NothingSentIff(env: Env, c: Context, input: Input)
    ensures Fetch(env, c, input).requests == [] <==> Refusal(env, c, input).Some?
    ensures Refusal(env, c, input).Some? ==> Fetch(env, c, input) == Run([], Refusal(env, c, input).value)
  {
    hide Follow, PolicyAllows, HostAllowed, DnsPolicy, AddressesAllowed, FirstHeaders;
    if env.parse(input.url, None).Some? {
      var url := env.parse(input.url, None).value;
      HostAllowedIff(env, c, input, url);
      AddressesAllowedIff(env, c, url, 0);
      if WithAuth(input.headers, input.auth).Some? {
        NotSent(env, c, input, LimitOf(c, input), url,
                FirstHeaders(input, WithAuth(input.headers, input.auth).value), 0);
      }
    }
  }

  /** A call that sends something: from the given URL from redirect to redirect, until it has to end. */
  lemma CallIsAsAnswered(env: Env, c: Context, input: Input)
    requires Fetch(env, c, input).requests != []
    ensures var run := Fetch(env, c, input);
            var k := |run.requests|;
            && env.parse(input.url, None) == Some(run.requests[0].url)
            && (forall i: nat :: i + 1 < k ==>
                  Target(env, c, input, run.requests[i].url, i) == Ok(run.requests[i + 1].url))
            && EndsBecause(env, c, input, LimitIn(c, input), run.requests[k - 1].url, k - 1, run.outcome)
  {
    hide Follow, PolicyAllows, Target, EndsBecause, HeadersAfter, DnsPolicy, Hop;
    var run := Fetch(env, c, input);
    var url := ParseAllowedUrl(env, input.url).value;
    var headers := FirstHeaders(input, WithAuth(input.headers, input.auth).value);
    FollowHop(env, c, input, LimitOf(c, input), url, headers, 0);
    EndIsDue(env, c, input, LimitOf(c, input), url, headers, 0);
    forall i: nat | i + 1 < |run.requests|
      ensures Target(env, c, input, run.requests[i].url, i) == Ok(run.requests[i + 1].url)
    {
      RedirectsAreFollowed(env, c, input, LimitOf(c, input), url, headers, 0, i);
    }
  }

  // ---------------------------------------------------------------- headers

  /** The same name in any letter case. The Kelvin sign is an upper-case k. */
  predicate IsCaseOf(name: string, word: string) {
    && |name| == |word|
    && forall i :: 0 <= i < |name| ==>
         || (name[i] == word[i] && !('A' <= name[i] <= 'Z'))
         || ('A' <= name[i] <= 'Z' && name[i] as int - 'A' as int == word[i] as int - 'a' as int)
         || (name[i] == '\U{212A}' && word[i] == 'k')
  }

  predicate IsSmall(word: string) {
    forall i :: 0 <= i < |word| ==> word[i] == '-' || 'a' <= word[i] <= 'z'
  }

  lemma LowerIs(name: string, word: string)
    requires IsSmall(word)
    ensures Lower(name) == word <==> IsCaseOf(name, word)
  {
    if IsCaseOf(name, word) {
      assert forall i :: 0 <= i < |name| ==> Lower(name)[i] == word[i];
    }
    if Lower(name) == word {
      forall i | 0 <= i < |name| ensures LowerChar(name[i]) == word[i] {
        assert Lower(name)[i] == word[i];
      }
    }
  }

  predicate IsSecretName(name: string) {
    || IsCaseOf(name, "authorization") || IsCaseOf(name, "cookie")
    || IsCaseOf(name, "proxy-authorization") || IsCaseOf(name, "x-api-key")
  }

  lemma SensitiveIff(name: string)
    ensures Sensitive(name) <==> IsSecretName(name)
  {
    hide Lower, IsCaseOf;
    LowerIs(name, "authorization");
    LowerIs(name, "cookie");
    LowerIs(name, "proxy-authorization");
    LowerIs(name, "x-api-key");
  }

  lemma PutMembers(headers: Record, key: string, value: string, e: Entry<string, string>)
    requires Wf(headers)
    ensures e in Put(headers, key, value) <==> e == Entry(key, value) || (e in headers && e.key != key)
  {
    var r := Put(headers, key, value);
    PutEffect(headers, key, value);
    hide Put;
    if e in headers && e.key != key {
      var i :| 0 <= i < |headers| && headers[i] == e;
      assert r[i] == e;
    }
    if Has(headers, key) {
      var i := FirstAt(headers, key);
      assert r[i] == Entry(key, value);
    } else {
      assert r[|headers|] == Entry(key, value);
    }
  }

  lemma FirstAt(headers: Record, key: string) returns (i: nat)
    requires Wf(headers) && Has(headers, key)
    ensures i < |headers| && headers[i].key == key && !Has(headers[..i], key)
  {
    i :| i < |headers| && headers[i].key == key;
  }

  /** A header as the input gives it, or the secret under the name and the scheme asked for. */
  predicate IsGiven(input: Input, e: Entry<string, string>) {
    match input.auth
    case None => e in input.headers
    case Some(auth) =>
      var name := if auth.header.None? then "Authorization" else auth.header.value;
      var scheme := if auth.scheme.None? then "Bearer" else auth.scheme.value;
      if e.key == name then auth.secret.Some? && e.value == scheme + " " + auth.secret.value else e in input.headers
  }

  lemma FirstHeadersAre(input: Input, e: Entry<string, string>)
    requires Wf(input.headers) && WithAuth(input.headers, input.auth).Some?
    ensures e in FirstHeaders(input, WithAuth(input.headers, input.auth).value)
       <==> IsGiven(input, e) && (input.allow_cookies || !IsCaseOf(e.key, "cookie"))
  {
    hide Lower, IsCaseOf, Put, Filter, Has;
    var withAuth := WithAuth(input.headers, input.auth).value;
    if input.auth.Some? {
      var auth := input.auth.value;
      PutMembers(input.headers, if auth.header.Some? then auth.header.value else "Authorization",
                 (if auth.scheme.Some? then auth.scheme.value else "Bearer") + " " + auth.secret.value, e);
    }
    LowerIs(e.key, "cookie");
    FilterMembers(withAuth, NotCookie, e);
  }

  /**
   The headers of each request: those given, with the secret, without cookies unless they are allowed, and
   without the four names in any letter case once another origin has been reached.
   */
  lemma HeadersAre(env: Env, c: Context, input: Input, k: nat, e: Entry<string, string>)
    requires Wf(input.headers) && k < |Fetch(env, c, input).requests|
    ensures var requests := Fetch(env, c, input).requests;
            (e in requests[k].headers
             <==> && IsGiven(input, e)
                  && (input.allow_cookies || !IsCaseOf(e.key, "cookie"))
                  && (IsSecretName(e.key) ==>
                        forall i: nat :: i < k ==> requests[i].url.origin == requests[i + 1].url.origin))
  {
    hide Follow, PolicyAllows, Filter, IsCaseOf, IsSecretName, IsGiven, Sensitive, FirstHeaders, WithAuth;
    var url := ParseAllowedUrl(env, input.url).value;
    var headers := FirstHeaders(input, WithAuth(input.headers, input.auth).value);
    var requests := Fetch(env, c, input).requests;
    HeadersOfEachRequest(env, c, input, LimitOf(c, input), url, headers, 0, k);
    FilterMembers(headers, Kept, e);
    FirstHeadersAre(input, e);
    SensitiveIff(e.key);
    NotCrossedIff(requests, k);
  }

  lemma NotCrossedIff(requests: seq<Request>, k: nat)
    requires k < |requests|
    ensures Crossed(requests, k) <==> !forall i: nat :: i < k ==> requests[i].url.origin == requests[i + 1].url.origin
  {
    if !forall i: nat :: i < k ==> requests[i].url.origin == requests[i + 1].url.origin {
      var i: nat :| i < k && requests[i].url.origin != requests[i + 1].url.origin;
      assert Crosses(requests, i);
    }
  }
}
