/** Why a fetch ends as it does, told by the last reply it got. */
module WebsiteFetchOutcome {
  import opened Basics
  import opened WebsiteFetch
  import opened WebsiteFetchBounds

  /** The robots requests at the end of a log: those of the policy asked for last. */
  function RobotsRun(log: seq<Call>): nat {
    if log == [] || log[|log| - 1].Page? then 0 else RobotsRun(log[..|log| - 1]) + 1
  }

  /** Where a redirect leads, if it says so, readably, to a valid URL. */
  predicate LeadsTo<Rules>(w: World<Rules>, from: Url, reply: Reply, to: Url)
    requires reply.Response?
  {
    && reply.location.Some? && reply.location.value != ""
    && w.join(reply.location.value, from).Some?
    && w.validate(w.join(reply.location.value, from).value) == Some(to)
  }

  /** A redirect is not followed: it is one too many or leads nowhere, cannot be read, leads to no valid
      URL, or off the target's site. */
  predicate NotFollowed<Rules>(
    w: World<Rules>, original: Url, from: Url, tooMany: bool, reply: Reply, giveUp: Failure, failure: Failure
  )
    requires reply.Response?
  {
    if tooMany || reply.location == None || reply.location == Some("") then failure == giveUp
    else if w.join(reply.location.value, from).None? then failure == RETRYABLE_ERROR
    else if w.validate(w.join(reply.location.value, from).value).None? then failure == INVALID_TARGET
    else
      !OnSite(w, original, w.validate(w.join(reply.location.value, from).value).value) && failure == BLOCKED
  }

  /** A page the policy does not let through: its rules deny it, or ask for a delay past the deadline. */
  predicate PolicyRefuses<Rules>(w: World<Rules>, timeout: int, policy: Option<Rules>, url: Url, failure: Failure) {
    if policy.Some? && w.allowed(policy.value, url) == Some(false) then failure == ROBOTS_DENIED
    else failure == RETRYABLE_ERROR && (if policy.Some? then w.crawlDelay(policy.value) else 0) > timeout
  }

  /** A fetch that ends on a robots reply. */
  ghost predicate RobotsEnds<Rules>(
    w: World<Rules>, timeout: int, original: Url, log: seq<Call>, call: Call, reply: Reply, failure: Failure
  )
    requires call.Robots? && reply.Response?
  {
    if reply.status in {301, 302, 303, 307, 308} then
      NotFollowed(w, original, call.url, RobotsRun(log) == 4, reply, RETRYABLE_ERROR, failure)
    else if reply.status == 404 then
      failure == RETRYABLE_ERROR && 0 > timeout
    else if reply.status == 401 || reply.status == 403 then failure == ROBOTS_DENIED
    else if reply.status < 200 || reply.status > 299 then failure == RETRYABLE_ERROR
    else if reply.body.Err? then failure == reply.body.error
    else if w.startsHtml(reply.body.value) || w.blockedPage(reply.body.value) then failure == RETRYABLE_ERROR
    else
      exists url: Url :: url.origin == call.policyOf && OnSite(w, original, url)
        && PolicyRefuses(w, timeout, Some(w.rules(call.policyOf, reply.body.value)), url, failure)
  }

  /** A page reply that is no redirect and no page to keep. */
  predicate Refused<Rules>(w: World<Rules>, reply: Reply, failure: Failure)
    requires reply.Response?
  {
    if reply.status == 429 || reply.status >= 500 then failure == RETRYABLE_ERROR
    else if reply.status == 401 || reply.status == 403 then failure == BLOCKED
    else if reply.status < 200 || reply.status > 299 then failure == UNSUPPORTED
    else if !w.isHtmlType(reply.contentType) then failure == UNSUPPORTED
    else if reply.body.Err? then failure == reply.body.error
    else if w.blockedPage(reply.body.value) then failure == BLOCKED
    else !w.hasMarkup(reply.body.value) && failure == UNSUPPORTED
  }

  predicate Kept<Rules>(w: World<Rules>, reply: Reply)
    requires reply.Response?
  {
    && 200 <= reply.status <= 299 && w.isHtmlType(reply.contentType)
    && reply.body.Ok? && !w.blockedPage(reply.body.value) && w.hasMarkup(reply.body.value)
  }

  /** A fetch that ends on a page reply. */
  ghost predicate PageEnds<Rules(!new)>(
    w: World<Rules>, timeout: int, original: Url, log: seq<Call>, call: Call, reply: Reply, result: Result<Url, Failure>
  )
    requires call.Page? && reply.Response?
  {
    if reply.status in {301, 302, 303, 307, 308} then
      result.Err? && (
        || NotFollowed(w, original, call.url, Pages(log) == 4, reply, UNSUPPORTED, result.error)
        || exists url, policy :: Pages(log) < 4 && LeadsTo(w, call.url, reply, url) && OnSite(w, original, url)
             && Grounded(w, log, url.origin, policy) && PolicyRefuses(w, timeout, policy, url, result.error))
    else if result.Ok? then result.value == call.url && Kept(w, reply)
    else Refused(w, reply, result.error)
  }

  /** The outcome fits the last reply; without any request the target was no valid URL. */
  ghost predicate EndsBecause<Rules(!new)>(
    w: World<Rules>, timeout: int, original: Url, log: seq<Call>, result: Result<Url, Failure>
  )
    requires log != []
  {
    var call, reply := log[|log| - 1], w.wire(log);
    match reply
    case Failed(outcome) => result == Err(outcome)
    case Response(_, _, _, _) =>
      if call.Robots? then result.Err? && RobotsEnds(w, timeout, original, log, call, reply, result.error)
      else PageEnds(w, timeout, original, log, call, reply, result)
  }

  // ----- the proof ---------------------------------------------------------------------------------------------

  lemma RunPush(log: seq<Call>, call: Call)
    ensures RobotsRun(log + [call]) == if call.Robots? then RobotsRun(log) + 1 else 0
  {
    assert (log + [call])[..|log|] == log;
  }

  lemma HopMeans<Rules>(w: World<Rules>, original: Url, from: Url, redirects: nat, reply: Reply, giveUp: Failure)
    requires reply.Response?
    ensures var hop := Hop(w, original, from, redirects, reply, giveUp);
      && (hop.Err? ==> NotFollowed(w, original, from, redirects == 3, reply, giveUp, hop.error))
      && (hop.Ok? ==> redirects != 3 && LeadsTo(w, from, reply, hop.value) && OnSite(w, original, hop.value))
  {
  }

  /** A policy that was told, and whose page is refused. */
  lemma {:induction false} AskedEnds<Rules(!new)>(
    w: World<Rules>, timeout: int, original: Url, origin: Origin, robotsUrl: Url, redirects: nat, log: seq<Call>
  )
    requires redirects <= MAX_REDIRECTS && RobotsRun(log) == redirects
    ensures var asked := AskRobots(w, original, origin, robotsUrl, redirects, log);
      && asked.log != []
      && (asked.policy.Err? ==> EndsBecause(w, timeout, original, asked.log, Err(asked.policy.error)))
      && (asked.policy.Ok? ==> Answers(w, asked.log, origin, asked.policy.value))
    decreases MAX_REDIRECTS - redirects
  {
    var call := Robots(robotsUrl, origin);
    var log' := log + [call];
    RunPush(log, call);
    var reply := w.wire(log');
    if reply.Response? && Redirects(reply.status) {
      HopMeans(w, original, robotsUrl, redirects, reply, RETRYABLE_ERROR);
      var hop := Hop(w, original, robotsUrl, redirects, reply, RETRYABLE_ERROR);
      if hop.Ok? {
        AskedEnds(w, timeout, original, origin, hop.value, redirects + 1, log');
      }
    }
  }

  lemma RefusalMeans<Rules>(w: World<Rules>, reply: Reply)
    requires reply.Response?
    ensures Refusal(w, reply).Some? ==> Refused(w, reply, Refusal(w, reply).value)
    ensures Refusal(w, reply).None? ==> Kept(w, reply)
  {
  }

  /** A told policy that refuses the page ends the fetch on the robots reply that told it. */
  lemma ToldEnds<Rules(!new)>(
    w: World<Rules>, timeout: int, original: Url, log: seq<Call>, url: Url, policy: Option<Rules>, failure: Failure
  )
    requires Answers(w, log, url.origin, policy) && OnSite(w, original, url)
    requires PolicyRefuses(w, timeout, policy, url, failure)
    ensures EndsBecause(w, timeout, original, log, Err(failure))
  {
  }

  /** How the fetch came to ask for `url`: as its target, or by the redirect of the page before. */
  ghost predicate Came<Rules>(w: World<Rules>, original: Url, url: Url, log: seq<Call>) {
    && OnSite(w, original, url)
    && (log != [] ==>
         var call, reply := log[|log| - 1], w.wire(log);
         && call.Page? && reply.Response? && reply.status in {301, 302, 303, 307, 308}
         && Pages(log) < 4 && LeadsTo(w, call.url, reply, url))
  }

  lemma CachedRefusalEnds<Rules(!new)>(
    w: World<Rules>, timeout: int, original: Url, log: seq<Call>, url: Url, policy: Option<Rules>, failure: Failure
  )
    requires log != [] && Came(w, original, url, log) && Grounded(w, log, url.origin, policy)
    requires PolicyRefuses(w, timeout, policy, url, failure)
    ensures EndsBecause(w, timeout, original, log, Err(failure))
  {
    hide LeadsTo, Grounded;
  }

  /** The page reply ends the fetch, or leads to the next page. */
  lemma PageReply<Rules(!new)>(
    w: World<Rules>, timeout: int, original: Url, url: Url, delay: int, redirects: nat, log: seq<Call>
  )
    requires redirects <= MAX_REDIRECTS && Pages(log) == redirects
    ensures var sent := log + [Page(url, delay)];
      var reply := w.wire(sent);
      && Pages(sent) == redirects + 1 && RobotsRun(sent) == 0
      && (reply.Failed? ==> EndsBecause(w, timeout, original, sent, Err(reply.outcome)))
      && (reply.Response? && !Redirects(reply.status) ==>
           var refusal := Refusal(w, reply);
           EndsBecause(w, timeout, original, sent, if refusal.Some? then Err(refusal.value) else Ok(url)))
      && (reply.Response? && Redirects(reply.status) ==>
           var hop := Hop(w, original, url, redirects, reply, UNSUPPORTED);
           && (hop.Err? ==> EndsBecause(w, timeout, original, sent, Err(hop.error)))
           && (hop.Ok? ==> redirects < MAX_REDIRECTS && Came(w, original, hop.value, sent)))
  {
    hide LeadsTo, NotFollowed, Hop, Refusal, Refused, Kept;
    var page := Page(url, delay);
    RunPush(log, page);
    PagesPush(log, page);
    var reply := w.wire(log + [page]);
    if reply.Response? {
      RefusalMeans(w, reply);
      HopMeans(w, original, url, redirects, reply, UNSUPPORTED);
    }
  }

  lemma {:induction false} FetchFromEnds<Rules(!new)>(
    w: World<Rules>, timeout: int, original: Url, url: Url, policies: Policies<Rules>, redirects: nat, log: seq<Call>
  )
    requires redirects <= MAX_REDIRECTS && Pages(log) == redirects && RobotsRun(log) == 0
    requires SameSite(w, original, url) && Came(w, original, url, log) && Cached(w, log, policies)
    requires AllFine(w, timeout, original, log) && (log == [] ==> policies == map[])
    ensures var r := FetchFrom(w, timeout, original, url, policies, redirects, log);
      r.log != [] && EndsBecause(w, timeout, original, r.log, r.result)
    decreases MAX_REDIRECTS - redirects
  {
    hide EndsBecause, Cached, Refusal, PolicyFor, AllFine, Came, Hop, Grounded, Answers, SameSite;
    var asked := PolicyFor(w, original, url, policies, log);
    AskedPolicy(w, timeout, original, url, policies, log);
    PolicyFine(w, timeout, original, url, policies, log);
    if asked.policy.Ok? && !Denied(w, asked.policy.value, url) && Delay(w, asked.policy.value) <= timeout {
      var policy, delay := asked.policy.value, Delay(w, asked.policy.value);
      SendPage(w, timeout, original, url, policies, log, asked);
      PageReply(w, timeout, original, url, delay, redirects, asked.log);
      var sent := asked.log + [Page(url, delay)];
      var reply := w.wire(sent);
      if reply.Response? && Redirects(reply.status) {
        var hop := Hop(w, original, url, redirects, reply, UNSUPPORTED);
        if hop.Ok? {
          HopOnSite(w, original, url, redirects, reply);
          FetchFromEnds(w, timeout, original, hop.value, policies[url.origin := policy], redirects + 1, sent);
        }
      }
    }
  }

  lemma HopOnSite<Rules>(w: World<Rules>, original: Url, from: Url, redirects: nat, reply: Reply)
    requires reply.Response?
    ensures var hop := Hop(w, original, from, redirects, reply, UNSUPPORTED);
      hop.Ok? ==> SameSite(w, original, hop.value)
  {
  }

  /** A policy that fails, or refuses the page, ends the fetch for the reason told. */
  lemma AskedPolicy<Rules(!new)>(
    w: World<Rules>, timeout: int, original: Url, url: Url, policies: Policies<Rules>, log: seq<Call>
  )
    requires RobotsRun(log) == 0 && Came(w, original, url, log) && Cached(w, log, policies)
    requires log == [] ==> policies == map[]
    ensures var asked := PolicyFor(w, original, url, policies, log);
      && (asked.policy.Err? ==>
           asked.log != [] && EndsBecause(w, timeout, original, asked.log, Err(asked.policy.error)))
      && (asked.policy.Ok? && Denied(w, asked.policy.value, url) ==>
           asked.log != [] && EndsBecause(w, timeout, original, asked.log, Err(ROBOTS_DENIED)))
      && (asked.policy.Ok? && !Denied(w, asked.policy.value, url) && Delay(w, asked.policy.value) > timeout ==>
           asked.log != [] && EndsBecause(w, timeout, original, asked.log, Err(RETRYABLE_ERROR)))
  {
    hide EndsBecause, Answers, AskRobots, Grounded, LeadsTo;
    if url.origin in policies {
      var policy := policies[url.origin];
      if Denied(w, policy, url) {
        CachedRefusalEnds(w, timeout, original, log, url, policy, ROBOTS_DENIED);
      } else if Delay(w, policy) > timeout {
        CachedRefusalEnds(w, timeout, original, log, url, policy, RETRYABLE_ERROR);
      }
    } else {
      AskedEnds(w, timeout, original, url.origin, RobotsUrl(url.origin), 0, log);
      var asked := AskRobots(w, original, url.origin, RobotsUrl(url.origin), 0, log);
      if asked.policy.Ok? {
        var policy := asked.policy.value;
        if Denied(w, policy, url) {
          ToldEnds(w, timeout, original, asked.log, url, policy, ROBOTS_DENIED);
        } else if Delay(w, policy) > timeout {
          ToldEnds(w, timeout, original, asked.log, url, policy, RETRYABLE_ERROR);
        }
      }
    }
  }

  /**
   * Every outcome of a fetch, told by the last reply: a target that is no valid URL is refused without a
   * request; an unusable robots file, a page that is none, a redirect that cannot be followed and a
   * policy that says no each end it with their own failure, and only a page that passes all is returned.
   */
  lemma FetchEndsBecause<Rules(!new)>(w: World<Rules>, timeout: int, target: string)
    ensures var r, original := Fetch(w, timeout, target), w.validate(target);
      if original.None? then r.log == [] && r.result == Err(INVALID_TARGET)
      else r.log != [] && EndsBecause(w, timeout, original.value, r.log, r.result)
  {
    var original := w.validate(target);
    if original.Some? {
      FetchFromEnds(w, timeout, original.value, original.value, map[], 0, []);
    }
  }

  // ----- every request on the way -----------------------------------------------------------------------------

  /** Robots replies that let the page be asked for: no robots file, or one that can be read as such. */
  predicate Readable<Rules>(w: World<Rules>, reply: Reply)
    requires reply.Response?
  {
    || reply.status == 404
    || (200 <= reply.status <= 299 && reply.body.Ok?
         && !w.startsHtml(reply.body.value) && !w.blockedPage(reply.body.value))
  }

  /** What the fetch may ask for next: first the robots file of its target; after a redirect, where it
      leads, or that origin's robots file before a page of it; after readable rules, a page of their origin. */
  ghost predicate MayFollow<Rules>(w: World<Rules>, original: Url, log: seq<Call>, next: Call) {
    if log == [] then next == Robots(Url(original.origin, "/robots.txt"), original.origin)
    else
      var call, reply := log[|log| - 1], w.wire(log);
      reply.Response? &&
      match call
      case Robots(url, origin) =>
        || (reply.status in {301, 302, 303, 307, 308} && next.Robots? && next.policyOf == origin
             && LeadsTo(w, url, reply, next.url))
        || (Readable(w, reply) && next.Page? && next.url.origin == origin)
      case Page(url, _) =>
        && reply.status in {301, 302, 303, 307, 308}
        && exists to :: LeadsTo(w, url, reply, to) &&
             ((next.Page? && next.url == to) || next == Robots(Url(to.origin, "/robots.txt"), to.origin))
  }

  ghost predicate AllFollow<Rules>(w: World<Rules>, original: Url, log: seq<Call>) {
    forall i :: 0 <= i < |log| ==> MayFollow(w, original, log[..i], log[i])
  }

  lemma FollowPush<Rules>(w: World<Rules>, original: Url, log: seq<Call>, next: Call)
    requires AllFollow(w, original, log) && MayFollow(w, original, log, next)
    ensures AllFollow(w, original, log + [next])
  {
    hide MayFollow;
    var longer := log + [next];
    forall i | 0 <= i < |longer| ensures MayFollow(w, original, longer[..i], longer[i]) {
      assert longer[..i] == log[..i];
      if i == |log| {
        assert log[..i] == log;
      }
    }
  }

  lemma {:induction false} AskedFollow<Rules(!new)>(
    w: World<Rules>, original: Url, origin: Origin, robotsUrl: Url, redirects: nat, log: seq<Call>
  )
    requires redirects <= MAX_REDIRECTS && AllFollow(w, original, log)
    requires MayFollow(w, original, log, Robots(robotsUrl, origin))
    ensures var asked := AskRobots(w, original, origin, robotsUrl, redirects, log);
      && AllFollow(w, original, asked.log)
      && (asked.policy.Ok? ==>
           forall url: Url, delay: int :: url.origin == origin ==> MayFollow(w, original, asked.log, Page(url, delay)))
    decreases MAX_REDIRECTS - redirects
  {
    hide AllFollow;
    var call := Robots(robotsUrl, origin);
    var log' := log + [call];
    FollowPush(w, original, log, call);
    var reply := w.wire(log');
    if reply.Response? && Redirects(reply.status) {
      HopMeans(w, original, robotsUrl, redirects, reply, RETRYABLE_ERROR);
      var hop := Hop(w, original, robotsUrl, redirects, reply, RETRYABLE_ERROR);
      if hop.Ok? {
        AskedFollow(w, original, origin, hop.value, redirects + 1, log');
      }
    }
  }

  /** Where the fetch stands when it turns to `url`. */
  ghost predicate TurnsTo<Rules>(w: World<Rules>, original: Url, url: Url, log: seq<Call>) {
    && MayFollow(w, original, log, Robots(Url(url.origin, "/robots.txt"), url.origin))
    && (log != [] ==> forall delay: int :: MayFollow(w, original, log, Page(url, delay)))
  }

  lemma {:induction false} FetchFromFollow<Rules(!new)>(
    w: World<Rules>, timeout: int, original: Url, url: Url, policies: Policies<Rules>, redirects: nat, log: seq<Call>
  )
    requires redirects <= MAX_REDIRECTS && AllFollow(w, original, log) && TurnsTo(w, original, url, log)
    requires log == [] ==> policies == map[]
    ensures AllFollow(w, original, FetchFrom(w, timeout, original, url, policies, redirects, log).log)
    decreases MAX_REDIRECTS - redirects
  {
    hide AllFollow, Refusal, PolicyFor, Hop, TurnsTo;
    PolicyFollows(w, original, url, policies, log);
    var asked := PolicyFor(w, original, url, policies, log);
    if asked.policy.Ok? && !Denied(w, asked.policy.value, url) && Delay(w, asked.policy.value) <= timeout {
      var page := Page(url, Delay(w, asked.policy.value));
      var sent := asked.log + [page];
      FollowPush(w, original, asked.log, page);
      var reply := w.wire(sent);
      if reply.Response? && Redirects(reply.status) {
        HopMeans(w, original, url, redirects, reply, UNSUPPORTED);
        var hop := Hop(w, original, url, redirects, reply, UNSUPPORTED);
        if hop.Ok? {
          Turned(w, original, url, page, reply, hop.value, sent);
          FetchFromFollow(
            w, timeout, original, hop.value, policies[url.origin := asked.policy.value], redirects + 1, sent);
        }
      }
    }
  }

  lemma Turned<Rules>(w: World<Rules>, original: Url, url: Url, page: Call, reply: Reply, to: Url, sent: seq<Call>)
    requires sent != [] && sent[|sent| - 1] == page && page.Page? && page.url == url && w.wire(sent) == reply
    requires reply.Response? && reply.status in {301, 302, 303, 307, 308} && LeadsTo(w, url, reply, to)
    ensures TurnsTo(w, original, to, sent)
  {
  }

  lemma PolicyFollows<Rules(!new)>(
    w: World<Rules>, original: Url, url: Url, policies: Policies<Rules>, log: seq<Call>
  )
    requires AllFollow(w, original, log) && TurnsTo(w, original, url, log) && (log == [] ==> policies == map[])
    ensures var asked := PolicyFor(w, original, url, policies, log);
      && AllFollow(w, original, asked.log)
      && (asked.policy.Ok? ==> forall delay: int :: MayFollow(w, original, asked.log, Page(url, delay)))
  {
    hide AllFollow, MayFollow, AskRobots;
    if url.origin !in policies {
      AskedFollow(w, original, url.origin, RobotsUrl(url.origin), 0, log);
    }
  }

  /**
   * Every request of a fetch follows from the reply before it. So any other reply is the last: a robots
   * file that answers 401 or 403, say, or any page reply but a redirect.
   */
  lemma FetchFollows<Rules(!new)>(w: World<Rules>, timeout: int, target: string)
    ensures var r, original := Fetch(w, timeout, target), w.validate(target);
      original.Some? ==> AllFollow(w, original.value, r.log)
  {
    var original := w.validate(target);
    if original.Some? {
      FetchFromFollow(w, timeout, original.value, original.value, map[], 0, []);
    }
  }

  lemma NotLast<Rules>(w: World<Rules>, original: Url, log: seq<Call>, k: nat)
    ensures AllFollow(w, original, log) && 0 < k < |log| && log[k - 1].Robots? ==>
      w.wire(log[..k]).Response? && w.wire(log[..k]).status !in {401, 403}
  {
    if AllFollow(w, original, log) && 0 < k < |log| && log[k - 1].Robots? {
      assert MayFollow(w, original, log[..k], log[k]);
    }
  }

  /** A robots reply of 401 or 403 ends the fetch, denied, with no further request. */
  lemma RobotsRefusalEnds<Rules(!new)>(w: World<Rules>, timeout: int, target: string, k: nat)
    requires var r := Fetch(w, timeout, target);
      && 0 < k <= |r.log| && r.log[k - 1].Robots?
      && w.wire(r.log[..k]).Response? && w.wire(r.log[..k]).status in {401, 403}
    ensures var r := Fetch(w, timeout, target); k == |r.log| && r.result == Err(ROBOTS_DENIED)
  {
    hide Fetch, LeadsTo;
    var r := Fetch(w, timeout, target);
    FetchEndsBecause(w, timeout, target);
    FetchFollows(w, timeout, target);
    NotLast(w, w.validate(target).value, r.log, k);
    assert k == |r.log| ==> r.log[..k] == r.log;
  }
}
