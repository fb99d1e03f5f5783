/**
 * One website fetch: robots policies fetched per origin and cached, redirects followed at most
 * three times each, every hop kept on the target's site.
 */
module WebsiteFetch {
  import opened Basics

  datatype Origin = Origin(scheme: string, host: string)

  datatype Url = Url(origin: Origin, path: string)

  datatype Failure = BLOCKED | ROBOTS_DENIED | RETRYABLE_ERROR | INVALID_TARGET | UNSUPPORTED

  /** A request as it leaves: for a page, or for the robots file of `policyOf`. */
  datatype Call =
    | Page(url: Url, crawlDelay: int)
    | Robots(url: Url, policyOf: Origin)

  /** What comes back: nothing usable, or a response whose body may still fail to arrive. */
  datatype Reply =
    | Failed(outcome: Failure)
    | Response(status: int, location: Option<string>, contentType: string, body: Result<string, Failure>)

  /**
   * Everything the fetch does not decide. `wire` answers the last call of a history, so replies
   * may depend on all that went before; `join` reads a Location against the URL it came from, if it
   * can be read at all; `validate` is the check every URL must pass;
   * `rules` and the two readers of it are the robots parser's.
   */
  datatype World<!Rules> = World(
    wire: seq<Call> -> Reply,
    join: (string, Url) -> Option<string>,
    validate: string -> Option<Url>,
    domain: string -> Option<string>,
    rules: (Origin, string) -> Rules,
    allowed: (Rules, Url) -> Option<bool>,
    crawlDelay: Rules -> int,
    isHtmlType: string -> bool,
    startsHtml: string -> bool,
    hasMarkup: string -> bool,
    blockedPage: string -> bool
  )

  const MAX_REDIRECTS := 3

  predicate Redirects(status: int) {
    status in {301, 302, 303, 307, 308}
  }

  predicate SameSite<Rules>(w: World<Rules>, a: Url, b: Url) {
    var domain := w.domain(a.origin.host);
    if domain.Some? then domain == w.domain(b.origin.host) else a.origin.host == b.origin.host
  }

  function RobotsUrl(origin: Origin): Url {
    Url(origin, "/robots.txt")
  }

  /** The next URL of a redirect, or why there is none. A Location that is no URL at all ends the fetch as
      any unexpected failure does. */
  function Hop<Rules>(
    w: World<Rules>, original: Url, from: Url, redirects: nat, reply: Reply, giveUp: Failure
  ): (r: Result<Url, Failure>)
    requires reply.Response?
    ensures r.Ok? ==> redirects != MAX_REDIRECTS && SameSite(w, original, r.value)
  {
    if redirects == MAX_REDIRECTS || reply.location.None? || reply.location.value == "" then Err(giveUp)
    else
      var href := w.join(reply.location.value, from);
      var to := if href.Some? then w.validate(href.value) else None;
      if href.None? then Err(RETRYABLE_ERROR)
      else if to.None? then Err(INVALID_TARGET)
      else if !SameSite(w, original, to.value) then Err(BLOCKED)
      else Ok(to.value)
  }

  // ----- the robots policy of an origin ----------------------------------------------------------

  /** What a robots reply that is no redirect says: no rules at all, rules, or a failure. */
  function Verdict<Rules>(w: World<Rules>, origin: Origin, reply: Reply): Result<Option<Rules>, Failure>
    requires reply.Response?
  {
    if reply.status == 404 then Ok(None)
    else if reply.status in {401, 403} then Err(ROBOTS_DENIED)
    else if reply.status < 200 || reply.status >= 300 then Err(RETRYABLE_ERROR)
    else if reply.body.Err? then Err(reply.body.error)
    else if w.startsHtml(reply.body.value) || w.blockedPage(reply.body.value) then Err(RETRYABLE_ERROR)
    else Ok(Some(w.rules(origin, reply.body.value)))
  }

  datatype Asked<+Rules> = Asked(policy: Result<Option<Rules>, Failure>, log: seq<Call>)

  function AskRobots<Rules>(
    w: World<Rules>, original: Url, origin: Origin, robotsUrl: Url, redirects: nat, log: seq<Call>
  ): Asked<Rules>
    requires redirects <= MAX_REDIRECTS
    decreases MAX_REDIRECTS - redirects
  {
    var log' := log + [Robots(robotsUrl, origin)];
    var reply := w.wire(log');
    if reply.Failed? then Asked(Err(reply.outcome), log')
    else if Redirects(reply.status) then
      var hop := Hop(w, original, robotsUrl, redirects, reply, RETRYABLE_ERROR);
      if hop.Err? then Asked(Err(hop.error), log')
      else AskRobots(w, original, origin, hop.value, redirects + 1, log')
    else Asked(Verdict(w, origin, reply), log')
  }

  // ----- the page ----------------------------------------------------------------------------------

  /** The URL whose page came back, or why none did; and every request on the way. */
  datatype Fetched = Fetched(result: Result<Url, Failure>, log: seq<Call>)

  predicate Denied<Rules>(w: World<Rules>, policy: Option<Rules>, url: Url) {
    policy.Some? && w.allowed(policy.value, url) == Some(false)
  }

  function Delay<Rules>(w: World<Rules>, policy: Option<Rules>): int {
    if policy.Some? then w.crawlDelay(policy.value) else 0
  }

  /** Why a page reply that is no redirect is no success, if it is not. */
  function Refusal<Rules>(w: World<Rules>, reply: Reply): Option<Failure>
    requires reply.Response?
  {
    if reply.status == 429 || reply.status >= 500 then Some(RETRYABLE_ERROR)
    else if reply.status == 401 || reply.status == 403 then Some(BLOCKED)
    else if reply.status < 200 || reply.status >= 300 then Some(UNSUPPORTED)
    else if !w.isHtmlType(reply.contentType) then Some(UNSUPPORTED)
    else if reply.body.Err? then Some(reply.body.error)
    else if w.blockedPage(reply.body.value) then Some(BLOCKED)
    else if !w.hasMarkup(reply.body.value) then Some(UNSUPPORTED)
    else None
  }

  type Policies<Rules> = map<Origin, Option<Rules>>

  function FetchFrom<Rules>(
    w: World<Rules>, siteTimeoutMs: int, original: Url, url: Url, policies: Policies<Rules>, redirects: nat,
    log: seq<Call>
  ): Fetched
    requires redirects <= MAX_REDIRECTS
    decreases MAX_REDIRECTS - redirects
  {
    var asked := PolicyFor(w, original, url, policies, log);
    if asked.policy.Err? then Fetched(Err(asked.policy.error), asked.log)
    else
      var policy := asked.policy.value;
      if Denied(w, policy, url) then Fetched(Err(ROBOTS_DENIED), asked.log)
      else if Delay(w, policy) > siteTimeoutMs then Fetched(Err(RETRYABLE_ERROR), asked.log)
      else
        var log' := asked.log + [Page(url, Delay(w, policy))];
        var reply := w.wire(log');
        if reply.Failed? then Fetched(Err(reply.outcome), log')
        else if Redirects(reply.status) then
          var hop := Hop(w, original, url, redirects, reply, UNSUPPORTED);
          if hop.Err? then Fetched(Err(hop.error), log')
          else FetchFrom(w, siteTimeoutMs, original, hop.value, policies[url.origin := policy], redirects + 1, log')
        else
          var refusal := Refusal(w, reply);
          Fetched(if refusal.Some? then Err(refusal.value) else Ok(url), log')
  }

  /** The cached policy, or the answer of asking now. */
  function PolicyFor<Rules>(
    w: World<Rules>, original: Url, url: Url, policies: Policies<Rules>, log: seq<Call>
  ): Asked<Rules> {
    if url.origin in policies then Asked(Ok(policies[url.origin]), log)
    else AskRobots(w, original, url.origin, RobotsUrl(url.origin), 0, log)
  }

  function Fetch<Rules>(w: World<Rules>, siteTimeoutMs: int, target: string): Fetched {
    var original := w.validate(target);
    if original.None? then Fetched(Err(INVALID_TARGET), [])
    else FetchFrom(w, siteTimeoutMs, original.value, original.value, map[], 0, [])
  }

  // ----- the fetcher ---------------------------------------------------------------------------------

  class SafeWebsiteFetcher<!Rules> {
    const w: World<Rules>
    const siteTimeoutMs: int
    var log: seq<Call>

    constructor (w: World<Rules>, siteTimeoutMs: int)
      ensures this.w == w && this.siteTimeoutMs == siteTimeoutMs && log == []
    {
      this.w, this.siteTimeoutMs := w, siteTimeoutMs;
      log := [];
    }

    method Request(call: Call) returns (reply: Reply)
      modifies this
      ensures log == old(log) + [call] && reply == w.wire(log)
    {
      log := log + [call];
      reply := w.wire(log);
    }

    method Policy(original: Url, url: Url, policies: Policies<Rules>) returns (policy: Result<Option<Rules>, Failure>)
      modifies this
      ensures Asked(policy, log) == PolicyFor(w, original, url, policies, old(log))
    {
      if url.origin in policies {
        return Ok(policies[url.origin]);
      }
      var robotsUrl := RobotsUrl(url.origin);
      var redirects := 0;
      while redirects <= MAX_REDIRECTS
        invariant 0 <= redirects <= MAX_REDIRECTS
        invariant PolicyFor(w, original, url, policies, old(log)) ==
          AskRobots(w, original, url.origin, robotsUrl, redirects, log)
        decreases MAX_REDIRECTS - redirects
      {
        var reply := Request(Robots(robotsUrl, url.origin));
        if reply.Failed? {
          return Err(reply.outcome);
        }
        if !Redirects(reply.status) {
          return Verdict(w, url.origin, reply);
        }
        var hop := Hop(w, original, robotsUrl, redirects, reply, RETRYABLE_ERROR);
        if hop.Err? {
          return Err(hop.error);
        }
        robotsUrl := hop.value;
        redirects := redirects + 1;
      }
      return Err(RETRYABLE_ERROR);
    }

    method FetchSite(target: string) returns (result: Result<Url, Failure>)
      requires log == []
      modifies this
      ensures Fetched(result, log) == Fetch(w, siteTimeoutMs, target)
    {
      hide Hop, Refusal, Denied, Delay, PolicyFor, AskRobots;
      var original := w.validate(target);
      if original.None? {
        return Err(INVALID_TARGET);
      }
      var url := original.value;
      var policies: Policies<Rules> := map[];
      var redirects := 0;
      while redirects <= MAX_REDIRECTS
        invariant 0 <= redirects <= MAX_REDIRECTS
        invariant Fetch(w, siteTimeoutMs, target) ==
          FetchFrom(w, siteTimeoutMs, original.value, url, policies, redirects, log)
        decreases MAX_REDIRECTS - redirects
      {
        var asked := Policy(original.value, url, policies);
        if asked.Err? {
          return Err(asked.error);
        }
        var policy := asked.value;
        policies := policies[url.origin := policy];
        if Denied(w, policy, url) {
          return Err(ROBOTS_DENIED);
        }
        var crawlDelay := Delay(w, policy);
        if crawlDelay > siteTimeoutMs {
          return Err(RETRYABLE_ERROR);
        }
        var reply := Request(Page(url, crawlDelay));
        if reply.Failed? {
          return Err(reply.outcome);
        }
        if !Redirects(reply.status) {
          var refusal := Refusal(w, reply);
          return if refusal.Some? then Err(refusal.value) else Ok(url);
        }
        var hop := Hop(w, original.value, url, redirects, reply, UNSUPPORTED);
        if hop.Err? {
          return Err(hop.error);
        }
        url := hop.value;
        redirects := redirects + 1;
      }
      return Err(UNSUPPORTED);
    }
  }
}
