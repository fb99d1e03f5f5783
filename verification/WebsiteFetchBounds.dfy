/** What one fetch may send, whatever the web answers. */
module WebsiteFetchBounds {
  import opened Basics
  import opened WebsiteFetch

  function Pages(log: seq<Call>): nat {
    if log == [] then 0 else Pages(log[..|log| - 1]) + if log[|log| - 1].Page? then 1 else 0
  }

  lemma {:induction false} PagesOfRobots(log: seq<Call>, more: seq<Call>)
    requires forall i :: 0 <= i < |more| ==> more[i].Robots?
    ensures Pages(log + more) == Pages(log)
  {
    if more == [] {
      assert log + more == log;
    } else {
      assert (log + more)[..|log + more| - 1] == log + more[..|more| - 1];
      PagesOfRobots(log, more[..|more| - 1]);
    }
  }

  lemma PagesPush(log: seq<Call>, call: Call)
    ensures Pages(log + [call]) == Pages(log) + if call.Page? then 1 else 0
  {
    assert (log + [call])[..|log|] == log;
  }

  /** The last call of `history` was a robots request for the origin, and its reply tells the policy: there
      is no robots file, or there is one that can be read as such, with these rules. */
  ghost predicate Answers<Rules(!new)>(w: World<Rules>, history: seq<Call>, origin: Origin, policy: Option<Rules>) {
    && history != [] && history[|history| - 1].Robots? && history[|history| - 1].policyOf == origin
    && var reply := w.wire(history);
       reply.Response? && (
         || (reply.status == 404 && policy == None)
         || (200 <= reply.status < 300 && reply.body.Ok?
              && !w.startsHtml(reply.body.value) && !w.blockedPage(reply.body.value)
              && policy == Some(w.rules(origin, reply.body.value))))
  }

  ghost predicate Grounded<Rules(!new)>(w: World<Rules>, log: seq<Call>, origin: Origin, policy: Option<Rules>) {
    exists k: nat :: k <= |log| && Answers(w, log[..k], origin, policy)
  }

  lemma GroundedLonger<Rules(!new)>(
    w: World<Rules>, log: seq<Call>, longer: seq<Call>, origin: Origin, policy: Option<Rules>
  )
    requires Grounded(w, log, origin, policy) && log <= longer
    ensures Grounded(w, longer, origin, policy)
  {
    var k: nat :| k <= |log| && Answers(w, log[..k], origin, policy);
    assert longer[..k] == log[..k];
  }

  /** A page request is grounded in a reply of its own origin: rules that do not deny it and ask
      for no longer delay than the fetch has, or a robots file that is not there. */
  ghost predicate PageAllowed<Rules(!new)>(w: World<Rules>, timeout: int, before: seq<Call>, page: Call)
    requires page.Page?
  {
    exists policy :: Grounded(w, before, page.url.origin, policy)
      && (policy.Some? ==> w.allowed(policy.value, page.url) != Some(false))
      && page.crawlDelay == (if policy.Some? then w.crawlDelay(policy.value) else 0) <= timeout
  }

  /** Hosts of one registrable domain, or, where the target's host has none, the very same host. */
  predicate OnSite<Rules>(w: World<Rules>, original: Url, url: Url) {
    if w.domain(original.origin.host).Some? then w.domain(url.origin.host) == w.domain(original.origin.host)
    else url.origin.host == original.origin.host
  }

  ghost predicate CallFine<Rules(!new)>(w: World<Rules>, timeout: int, original: Url, before: seq<Call>, call: Call) {
    OnSite(w, original, call.url) && (call.Page? ==> PageAllowed(w, timeout, before, call))
  }

  ghost predicate AllFine<Rules(!new)>(w: World<Rules>, timeout: int, original: Url, log: seq<Call>) {
    forall i :: 0 <= i < |log| ==> CallFine(w, timeout, original, log[..i], log[i])
  }

  lemma FinePush<Rules(!new)>(w: World<Rules>, timeout: int, original: Url, log: seq<Call>, call: Call)
    requires AllFine(w, timeout, original, log) && CallFine(w, timeout, original, log, call)
    ensures AllFine(w, timeout, original, log + [call])
  {
    var longer := log + [call];
    forall i | 0 <= i < |longer|
      ensures CallFine(w, timeout, original, longer[..i], longer[i])
    {
      assert longer[..i] == log[..i];
      if i == |log| {
        assert log[..i] == log;
      }
    }
  }

  /** What asking for a policy adds to the log. */
  ghost predicate AskedFine<Rules(!new)>(
    w: World<Rules>, timeout: int, original: Url, origin: Origin, room: nat, log: seq<Call>, asked: Asked<Rules>
  ) {
    && log <= asked.log && |asked.log| <= |log| + room && Pages(asked.log) == Pages(log)
    && AllFine(w, timeout, original, asked.log)
    && (asked.policy.Ok? ==> Grounded(w, asked.log, origin, asked.policy.value))
  }

  lemma {:induction false} AskRobotsFine<Rules(!new)>(
    w: World<Rules>, timeout: int, original: Url, origin: Origin, robotsUrl: Url, redirects: nat, log: seq<Call>
  )
    requires redirects <= MAX_REDIRECTS && SameSite(w, original, robotsUrl) && AllFine(w, timeout, original, log)
    ensures AskedFine(w, timeout, original, origin, MAX_REDIRECTS + 1 - redirects, log,
      AskRobots(w, original, origin, robotsUrl, redirects, log))
    decreases MAX_REDIRECTS - redirects
  {
    hide AllFine, Grounded;
    var call := Robots(robotsUrl, origin);
    var log' := log + [call];
    FinePush(w, timeout, original, log, call);
    PagesPush(log, call);
    var reply := w.wire(log');
    if reply.Response? {
      if Redirects(reply.status) {
        var hop := Hop(w, original, robotsUrl, redirects, reply, RETRYABLE_ERROR);
        if hop.Ok? {
          AskRobotsFine(w, timeout, original, origin, hop.value, redirects + 1, log');
        }
      } else {
        var verdict := Verdict(w, origin, reply);
        if verdict.Ok? {
          LastGrounds(w, log', origin, verdict.value);
        }
      }
    }
  }

  lemma LastGrounds<Rules(!new)>(w: World<Rules>, log: seq<Call>, origin: Origin, policy: Option<Rules>)
    requires Answers(w, log, origin, policy)
    ensures Grounded(w, log, origin, policy)
  {
    assert log[..|log|] == log;
  }

  ghost predicate Cached<Rules(!new)>(w: World<Rules>, log: seq<Call>, policies: Policies<Rules>) {
    forall o :: o in policies ==> Grounded(w, log, o, policies[o])
  }

  lemma CachedLonger<Rules(!new)>(w: World<Rules>, log: seq<Call>, longer: seq<Call>, policies: Policies<Rules>)
    requires Cached(w, log, policies) && log <= longer
    ensures Cached(w, longer, policies)
  {
    forall o | o in policies ensures Grounded(w, longer, o, policies[o]) {
      GroundedLonger(w, log, longer, o, policies[o]);
    }
  }

  lemma PolicyFine<Rules(!new)>(
    w: World<Rules>, timeout: int, original: Url, url: Url, policies: Policies<Rules>, log: seq<Call>
  )
    requires SameSite(w, original, url) && AllFine(w, timeout, original, log) && Cached(w, log, policies)
    ensures AskedFine(
      w, timeout, original, url.origin, MAX_REDIRECTS + 1, log, PolicyFor(w, original, url, policies, log))
  {
    if url.origin !in policies {
      AskRobotsFine(w, timeout, original, url.origin, RobotsUrl(url.origin), 0, log);
    }
  }

  /** Everything the rest of a fetch does, from the top of its loop. */
  ghost predicate RestFine<Rules(!new)>(
    w: World<Rules>, timeout: int, original: Url, hops: nat, log: seq<Call>, r: Fetched
  ) {
    && log <= r.log && Pages(r.log) <= Pages(log) + hops && |r.log| <= |log| + hops * (MAX_REDIRECTS + 2)
    && AllFine(w, timeout, original, r.log)
    && (r.result.Ok? ==> EndsWithPage(w, r))
  }

  /** The page that came back is the last one asked for, and nothing about it was refused. */
  predicate EndsWithPage<Rules>(w: World<Rules>, r: Fetched) {
    && r.result.Ok? && r.log != [] && r.log[|r.log| - 1].Page? && r.log[|r.log| - 1].url == r.result.value
    && w.wire(r.log).Response? && Refusal(w, w.wire(r.log)).None?
  }

  /** Asking for a page that the origin's policy allows. */
  lemma SendPage<Rules(!new)>(
    w: World<Rules>, timeout: int, original: Url, url: Url, policies: Policies<Rules>,
    log: seq<Call>, asked: Asked<Rules>
  )
    requires SameSite(w, original, url) && Cached(w, log, policies) && asked.policy.Ok?
    requires AskedFine(w, timeout, original, url.origin, MAX_REDIRECTS + 1, log, asked)
    requires !Denied(w, asked.policy.value, url) && Delay(w, asked.policy.value) <= timeout
    ensures var sent := asked.log + [Page(url, Delay(w, asked.policy.value))];
      && AllFine(w, timeout, original, sent) && Pages(sent) == Pages(log) + 1
      && log <= sent && |sent| <= |log| + MAX_REDIRECTS + 2
      && Cached(w, sent, policies[url.origin := asked.policy.value])
  {
    hide AllFine, Grounded;
    var policy := asked.policy.value;
    var page := Page(url, Delay(w, policy));
    assert PageAllowed(w, timeout, asked.log, page);
    FinePush(w, timeout, original, asked.log, page);
    PagesPush(asked.log, page);
    CachedLonger(w, log, asked.log + [page], policies);
    GroundedLonger(w, asked.log, asked.log + [page], url.origin, policy);
  }

  lemma {:induction false} FetchFromFine<Rules(!new)>(
    w: World<Rules>, timeout: int, original: Url, url: Url, policies: Policies<Rules>, redirects: nat, log: seq<Call>
  )
    requires redirects <= MAX_REDIRECTS && SameSite(w, original, url)
    requires AllFine(w, timeout, original, log) && Cached(w, log, policies)
    ensures RestFine(w, timeout, original, MAX_REDIRECTS + 1 - redirects, log,
      FetchFrom(w, timeout, original, url, policies, redirects, log))
    decreases MAX_REDIRECTS - redirects
  {
    hide AllFine, Cached, Refusal, PolicyFor, SameSite, Denied, Delay, Pages, Hop;
    var asked := PolicyFor(w, original, url, policies, log);
    PolicyFine(w, timeout, original, url, policies, log);
    if asked.policy.Ok? && !Denied(w, asked.policy.value, url) && Delay(w, asked.policy.value) <= timeout {
      SendPage(w, timeout, original, url, policies, log, asked);
      var sent := asked.log + [Page(url, Delay(w, asked.policy.value))];
      var reply := w.wire(sent);
      if reply.Response? && Redirects(reply.status) {
        var hop := Hop(w, original, url, redirects, reply, UNSUPPORTED);
        if hop.Ok? {
          var policies' := policies[url.origin := asked.policy.value];
          FetchFromFine(w, timeout, original, hop.value, policies', redirects + 1, sent);
        }
      }
    }
  }

  /**
   * Whatever the web answers, one fetch asks for at most 4 pages and makes at most 20 requests;
   * every URL it asks for is on the target's site; every page it asks for was allowed by its own
   * origin's rules, at a delay within the site deadline, or that origin has no robots file; and a
   * page it returns is the last one it asked for.
   */
  lemma FetchIsPolite<Rules(!new)>(w: World<Rules>, timeout: int, target: string)
    ensures var r := Fetch(w, timeout, target);
      && Pages(r.log) <= 4 && |r.log| <= 20
      && (r.log != [] ==> w.validate(target).Some? && AllFine(w, timeout, w.validate(target).value, r.log))
      && (r.result.Ok? ==> EndsWithPage(w, r))
  {
    var original := w.validate(target);
    if original.Some? {
      FetchFromFine(w, timeout, original.value, original.value, map[], 0, []);
    }
  }
}
