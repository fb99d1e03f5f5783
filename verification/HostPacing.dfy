/**
 * How requests to one host take turns: a chain in which each waits for the one before it to
 * unlock, then for the host's next permitted time.
 */
module HostPacing {
  import opened Basics

  function Max(a: int, b: int): int {
    if a >= b then a else b
  }

  /** `t` is the latest of some times. */
  ghost predicate Latest(t: int, times: seq<int>) {
    t in times && forall k :: 0 <= k < |times| ==> times[k] <= t
  }

  lemma LatestOfThree(a: int, b: int, c: int)
    ensures Latest(Max(a, Max(b, c)), [a, b, c])
  {
    assert [a, b, c][0] == a && [a, b, c][1] == b && [a, b, c][2] == c;
  }

  lemma LatestOfTwo(now: int, p: Pace)
    ensures Latest(now + Max(p.minInterval, p.crawlDelay), [now + p.minInterval, now + p.crawlDelay])
  {
    var times := [now + p.minInterval, now + p.crawlDelay];
    assert times[0] == now + p.minInterval && times[1] == now + p.crawlDelay;
  }

  /** A host's shared turn. `last` is 0 until something was sent. */
  datatype Turn = Turn(next: int, last: int)

  /** What a request brings: its fetcher's minimum interval and its origin's crawl delay. */
  datatype Pace = Pace(minInterval: int, crawlDelay: int)

  predicate ValidPace(p: Pace) {
    p.minInterval >= 0 && p.crawlDelay >= 0
  }

  /** The earliest time a request may be sent, as it reckons when its turn comes. */
  function Due(turn: Turn, p: Pace, now: int): int {
    Max(now, Max(turn.next, if turn.last != 0 then turn.last + p.crawlDelay else 0))
  }

  function Taken(p: Pace, now: int): Turn {
    Turn(now + Max(p.minInterval, p.crawlDelay), now)
  }

  /** The interval the host is owed between two consecutive requests. */
  function Gap(a: Pace, b: Pace): int {
    Max(a.minInterval, Max(a.crawlDelay, b.crawlDelay))
  }

  class HostTurn {
    var next: int
    var last: int

    constructor ()
      ensures next == 0 && last == 0
    {
      next, last := 0, 0;
    }

    method Wait(p: Pace, now: int) returns (wait: int)
      ensures wait >= 0 && now + wait == Due(Turn(next, last), p, now)
      ensures Latest(now + wait, [now, next, if last != 0 then last + p.crawlDelay else 0])
    {
      LatestOfThree(now, next, if last != 0 then last + p.crawlDelay else 0);
      wait := Max(0, Max(next, if last != 0 then last + p.crawlDelay else 0) - now);
    }

    /** Sent at `now`, unless that reads zero: no later request is due before the interval it is owed. */
    method Send(p: Pace, now: int)
      modifies this
      ensures Turn(next, last) == Taken(p, now)
      ensures last == now && Latest(next, [now + p.minInterval, now + p.crawlDelay])
      ensures now != 0 ==> forall q, later :: Due(Turn(next, last), q, later) >= now + Gap(p, q)
    {
      LatestOfTwo(now, p);
      last := now;
      next := last + Max(p.minInterval, p.crawlDelay);
    }
  }

  // ----- the chain under any interleaving --------------------------------------------------------

  /** `Queued`: awaiting the request ahead. `Sleeping`: its turn came, waiting until due.
      `InFlight`: sent, headers not here yet. `Gone`: unlocked, sent or not. */
  datatype Phase = Queued | Sleeping(due: int) | InFlight | Gone

  datatype Request = Request(pace: Pace, phase: Phase)

  datatype Sent = Sent(at: int, pace: Pace)

  /** `sends` records what reached the transport, in order. */
  datatype Host = Host(clock: int, turn: Turn, chain: seq<Request>, sends: seq<Sent>)

  datatype Step = Tick(to: int) | Join(pace: Pace) | Start(i: nat) | Wake(i: nat) | Finish(i: nat) | Abort(i: nat)

  predicate Pending(r: Request) {
    r.phase.Queued? || r.phase.Sleeping?
  }

  predicate Enabled(h: Host, e: Step) {
    match e
    case Tick(to) => h.clock <= to
    case Join(pace) => ValidPace(pace)
    case Start(i) => i < |h.chain| && h.chain[i].phase.Queued? && (i == 0 || h.chain[i - 1].phase.Gone?)
    case Wake(i) => i < |h.chain| && h.chain[i].phase.Sleeping? && h.chain[i].phase.due <= h.clock
    case Finish(i) => i < |h.chain| && h.chain[i].phase.InFlight?
    case Abort(i) => i < |h.chain| && Pending(h.chain[i])
  }

  function In(h: Host, i: nat, phase: Phase): seq<Request>
    requires i < |h.chain|
  {
    h.chain[i := h.chain[i].(phase := phase)]
  }

  function Next(h: Host, e: Step): Host
    requires Enabled(h, e)
  {
    match e
    case Tick(to) => h.(clock := to)
    case Join(pace) => h.(chain := h.chain + [Request(pace, Queued)])
    case Start(i) => h.(chain := In(h, i, Sleeping(Due(h.turn, h.chain[i].pace, h.clock))))
    case Wake(i) => h.(
      chain := In(h, i, InFlight),
      turn := Taken(h.chain[i].pace, h.clock),
      sends := h.sends + [Sent(h.clock, h.chain[i].pace)])
    case Finish(i) => h.(chain := In(h, i, Gone))
    case Abort(i) => h.(chain := In(h, i, Gone))
  }

  function Run(h: Host, es: seq<Step>): Option<Host> {
    if es == [] then Some(h)
    else
      var mid := Run(h, es[..|es| - 1]);
      if mid.Some? && Enabled(mid.value, es[|es| - 1]) then Some(Next(mid.value, es[|es| - 1])) else None
  }

  /** A request gives up while queued behind one that has not been sent yet. */
  predicate Overtakes(h: Host, e: Step) {
    && e.Abort? && e.i < |h.chain| && h.chain[e.i].phase.Queued?
    && exists j :: 0 <= j < e.i && Pending(h.chain[j])
  }

  /** A run in which no request gives up while one ahead of it is still unsent. */
  predicate Patient(h: Host, es: seq<Step>) {
    es == [] ||
    var mid := Run(h, es[..|es| - 1]);
    Patient(h, es[..|es| - 1]) && mid.Some? && !Overtakes(mid.value, es[|es| - 1])
  }

  ghost predicate Paced(sends: seq<Sent>) {
    forall k :: 0 < k < |sends| ==> sends[k].at - sends[k - 1].at >= Gap(sends[k - 1].pace, sends[k].pace)
  }

  function Idle(clock: int): Host {
    Host(clock, Turn(0, 0), [], [])
  }

  // ----- patient runs are paced -------------------------------------------------------------------

  predicate Started(r: Request) {
    !r.phase.Queued?
  }

  ghost predicate InOrder(chain: seq<Request>) {
    forall i, j :: 0 <= j < i < |chain| && Started(chain[i]) ==> !Pending(chain[j])
  }

  /** A sleeper's due time respects the latest send. */
  predicate RespectsTurn(h: Host, r: Request) {
    r.phase.Sleeping? ==>
      h.turn.next <= r.phase.due && (h.sends != [] ==> h.turn.last + r.pace.crawlDelay <= r.phase.due)
  }

  ghost predicate Sound(h: Host) {
    && h.clock > 0
    && InOrder(h.chain)
    && (forall i :: 0 <= i < |h.chain| ==> ValidPace(h.chain[i].pace) && RespectsTurn(h, h.chain[i]))
    && (if h.sends == [] then h.turn == Turn(0, 0)
        else var s := h.sends[|h.sends| - 1]; h.turn == Taken(s.pace, s.at) && 0 < s.at)
    && Paced(h.sends)
  }

  lemma StepSound(h: Host, e: Step)
    requires Sound(h) && Enabled(h, e) && !Overtakes(h, e)
    ensures Sound(Next(h, e))
  {
    var t := Next(h, e);
    if e.Wake? {
      assert RespectsTurn(h, h.chain[e.i]);
      assert forall j :: 0 <= j < |h.chain| && j != e.i ==> !h.chain[j].phase.Sleeping?;
    }
  }

  /**
   * With a positive, monotone clock, and as long as no request gives up behind an unsent one,
   * two consecutive sends to a host are apart by at least the earlier one's minimum interval
   * and both requests' crawl delays.
   */
  lemma {:induction false} PatientRunsArePaced(clock: int, es: seq<Step>)
    requires clock > 0 && Patient(Idle(clock), es) && Run(Idle(clock), es).Some?
    ensures Paced(Run(Idle(clock), es).value.sends) && Sound(Run(Idle(clock), es).value)
  {
    if es != [] {
      PatientRunsArePaced(clock, es[..|es| - 1]);
      StepSound(Run(Idle(clock), es[..|es| - 1]).value, es[|es| - 1]);
    }
  }

  /**
   * And a request is not held longer than that: once a host has been sent to, the due time of the next
   * request to start is the latest of now and the latest send plus its interval, its crawl delay and
   * the request's own; before, it is now.
   */
  lemma DueExactly(h: Host, i: nat)
    requires Sound(h) && Enabled(h, Start(i))
    ensures var t := Next(h, Start(i));
      && t.sends == h.sends && t.chain[i].phase.Sleeping?
      && (h.sends == [] ==> t.chain[i].phase.due == h.clock)
      && (h.sends != [] ==>
           var s := h.sends[|h.sends| - 1];
           Latest(t.chain[i].phase.due, [
             h.clock, s.at + s.pace.minInterval, s.at + s.pace.crawlDelay, s.at + h.chain[i].pace.crawlDelay]))
  {
    if h.sends != [] {
      var s := h.sends[|h.sends| - 1];
      var times := [h.clock, s.at + s.pace.minInterval, s.at + s.pace.crawlDelay, s.at + h.chain[i].pace.crawlDelay];
      assert times[0] == h.clock && times[1] == s.at + s.pace.minInterval;
      assert times[2] == s.at + s.pace.crawlDelay && times[3] == s.at + h.chain[i].pace.crawlDelay;
    }
  }

  // ----- and impatient ones need not be ---------------------------------------------------------------

  lemma RunOn(h: Host, es: seq<Step>, mid: Host, e: Step)
    requires Run(h, es) == Some(mid) && Enabled(mid, e)
    ensures Run(h, es + [e]) == Some(Next(mid, e))
    ensures Patient(h, es) && !Overtakes(mid, e) ==> Patient(h, es + [e])
  {
    assert (es + [e])[..|es + [e]| - 1] == es;
  }

  predicate HeadOfLine(h: Host, j: nat) {
    j < |h.chain| && Pending(h.chain[j]) && forall k :: 0 <= k < j ==> !Pending(h.chain[k])
  }

  lemma {:induction false} FirstPending(h: Host, n: nat) returns (j: nat)
    requires n <= |h.chain| && exists k :: 0 <= k < n && Pending(h.chain[k])
    ensures j < n && HeadOfLine(h, j)
  {
    if k :| 0 <= k < n - 1 && Pending(h.chain[k]) {
      j := FirstPending(h, n - 1);
    } else {
      j := n - 1;
    }
  }

  /** Let the first unsent request of the line reach its sleep. */
  lemma StartHead(h: Host, es: seq<Step>, mid: Host, j: nat, d: nat) returns (es': seq<Step>, mid': Host)
    requires Run(h, es) == Some(mid) && HeadOfLine(mid, j) && j < d < |mid.chain|
    ensures es <= es' && Run(h, es') == Some(mid') && |mid'.chain| == |mid.chain|
    ensures mid'.chain[j].phase.Sleeping? && mid'.chain[j].pace == mid.chain[j].pace
    ensures forall k :: j < k < |mid.chain| ==> mid'.chain[k] == mid.chain[k]
  {
    es', mid' := es, mid;
    if mid.chain[j].phase.Queued? {
      if j > 0 && mid.chain[j - 1].phase.InFlight? {
        RunOn(h, es', mid', Finish(j - 1));
        es', mid' := es' + [Finish(j - 1)], Next(mid', Finish(j - 1));
      }
      RunOn(h, es', mid', Start(j));
      es', mid' := es' + [Start(j)], Next(mid', Start(j));
    }
  }

  /** Two requests asleep at once can be sent at the same moment. */
  lemma SendBoth(h: Host, es: seq<Step>, mid: Host, j: nat, d: nat) returns (es': seq<Step>, end: Host)
    requires Run(h, es) == Some(mid) && j < d < |mid.chain|
    requires mid.chain[j].phase.Sleeping? && mid.chain[d].phase.Sleeping? && mid.chain[j].pace.minInterval > 0
    ensures Run(h, es') == Some(end) && es <= es' && !Paced(end.sends)
  {
    var t := Max(mid.clock, Max(mid.chain[j].phase.due, mid.chain[d].phase.due));
    RunOn(h, es, mid, Tick(t));
    var one := Next(mid, Tick(t));
    RunOn(h, es + [Tick(t)], one, Wake(j));
    var two := Next(one, Wake(j));
    RunOn(h, es + [Tick(t)] + [Wake(j)], two, Wake(d));
    es', end := es + [Tick(t)] + [Wake(j)] + [Wake(d)], Next(two, Wake(d));
    var n := |end.sends|;
    assert end.sends[n - 1] == Sent(t, mid.chain[d].pace) && end.sends[n - 2] == Sent(t, mid.chain[j].pace);
  }

  /**
   * The condition is exact: from any state a patient run reaches, a request that gives up behind
   * an unsent one lets its successor through early, and some continuation then sends two
   * requests with no interval between them at all.
   */
  lemma OvertakingBreaksPacing(h: Host, i: nat) returns (es: seq<Step>, end: Host)
    requires Sound(h) && Enabled(h, Abort(i)) && Overtakes(h, Abort(i))
    requires forall k :: 0 <= k < |h.chain| ==> h.chain[k].pace.minInterval > 0
    ensures es != [] && es[0] == Abort(i) && Run(h, es) == Some(end) && !Paced(end.sends)
  {
    var j := FirstPending(h, i);
    RunOn(h, [], h, Abort(i));
    assert [] + [Abort(i)] == [Abort(i)];
    es, end := [Abort(i)], Next(h, Abort(i));
    var d := i + 1;
    if d == |h.chain| {
      RunOn(h, es, end, Join(Pace(1, 0)));
      es, end := es + [Join(Pace(1, 0))], Next(end, Join(Pace(1, 0)));
    } else {
      assert !Started(h.chain[d]);
    }
    assert HeadOfLine(end, j);
    es, end := StartHead(h, es, end, j, d);
    RunOn(h, es, end, Start(d));
    es, end := es + [Start(d)], Next(end, Start(d));
    es, end := SendBoth(h, es, end, j, d);
  }

  /** From a clock that has not passed zero even a patient run need not be paced: a send at time zero is
      taken for no send at all, and the next request forgets its own crawl delay. */
  lemma ZeroClockForgetsCrawlDelay(clock: int) returns (es: seq<Step>, end: Host)
    requires clock <= 0
    ensures Patient(Idle(clock), es) && Run(Idle(clock), es) == Some(end) && !Paced(end.sends)
  {
    var h := Idle(clock);
    RunOn(h, [], h, Tick(0));
    assert [] + [Tick(0)] == [Tick(0)];
    es, end := [Tick(0)], Idle(0);
    RunOn(h, es, end, Join(Pace(0, 0)));
    es, end := es + [Join(Pace(0, 0))], Next(end, Join(Pace(0, 0)));
    RunOn(h, es, end, Start(0));
    es, end := es + [Start(0)], Next(end, Start(0));
    RunOn(h, es, end, Wake(0));
    es, end := es + [Wake(0)], Next(end, Wake(0));
    RunOn(h, es, end, Finish(0));
    es, end := es + [Finish(0)], Next(end, Finish(0));
    RunOn(h, es, end, Join(Pace(0, 5)));
    es, end := es + [Join(Pace(0, 5))], Next(end, Join(Pace(0, 5)));
    RunOn(h, es, end, Start(1));
    es, end := es + [Start(1)], Next(end, Start(1));
    RunOn(h, es, end, Wake(1));
    es, end := es + [Wake(1)], Next(end, Wake(1));
    assert end.sends == [Sent(0, Pace(0, 0)), Sent(0, Pace(0, 5))];
    assert end.sends[1].at - end.sends[1 - 1].at < Gap(end.sends[1 - 1].pace, end.sends[1].pace);
  }

  ghost predicate AlwaysPaced(h: Host) {
    forall es :: Patient(h, es) && Run(h, es).Some? ==> Paced(Run(h, es).value.sends)
  }

  /** Patient runs are paced if and only if the clock they start from has passed zero. */
  lemma PacedExactlyFromPositiveClocks(clock: int)
    ensures AlwaysPaced(Idle(clock)) <==> clock > 0
  {
    hide Patient, Run, Paced;
    if clock > 0 {
      forall es | Patient(Idle(clock), es) && Run(Idle(clock), es).Some?
        ensures Paced(Run(Idle(clock), es).value.sends)
      {
        PatientRunsArePaced(clock, es);
      }
    } else {
      var es, end := ZeroClockForgetsCrawlDelay(clock);
    }
  }
}
