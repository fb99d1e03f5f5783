/**
 * The two site slots every fetcher shares: a counter and a queue of waiting fetches, with a
 * released slot handed straight to the first of them.
 */
module SiteSlots {
  import opened Basics

  const MAX_SITES := 2

  /** The module state, and what a bystander could record: who holds a slot, who asked, who got one. */
  datatype Slots = Slots(
    activeSites: nat,
    siteWaiters: seq<string>,
    live: set<string>,
    requested: seq<string>,
    granted: seq<string>
  )

  const START := Slots(0, [], {}, [], [])

  /** A step of some interleaving: a fetch asks for a slot, or one that has a slot gives it back. */
  datatype Step = Acquire(id: string) | Release(id: string)

  predicate Enabled(s: Slots, e: Step) {
    match e
    case Acquire(id) => id !in s.requested
    case Release(id) => id in s.live
  }

  function Next(s: Slots, e: Step): Slots
    requires Enabled(s, e)
  {
    match e
    case Acquire(id) =>
      if s.activeSites >= MAX_SITES then s.(siteWaiters := s.siteWaiters + [id], requested := s.requested + [id])
      else s.(
        activeSites := s.activeSites + 1,
        live := s.live + {id},
        requested := s.requested + [id],
        granted := s.granted + [id])
    case Release(id) =>
      if s.siteWaiters != [] then s.(
        siteWaiters := s.siteWaiters[1..],
        live := s.live - {id} + {s.siteWaiters[0]},
        granted := s.granted + [s.siteWaiters[0]])
      else if s.activeSites > 0 then s.(activeSites := s.activeSites - 1, live := s.live - {id})
      else s.(live := s.live - {id})
  }

  /** Where an interleaving leads, unless some step of it could not have happened. */
  function Run(s: Slots, es: seq<Step>): Option<Slots> {
    if es == [] then Some(s)
    else
      var mid := Run(s, es[..|es| - 1]);
      if mid.Some? && Enabled(mid.value, es[|es| - 1]) then Some(Next(mid.value, es[|es| - 1])) else None
  }

  /** What every interleaving keeps. */
  ghost predicate Sound(s: Slots) {
    && s.activeSites == |s.live| <= MAX_SITES
    && (s.siteWaiters != [] ==> s.activeSites == MAX_SITES)
    && s.requested == s.granted + s.siteWaiters
    && Distinct(s.requested)
    && (forall id :: id in s.live ==> id in s.granted)
  }

  class SiteGate {
    var activeSites: nat
    var siteWaiters: seq<string>
    ghost var state: Slots

    ghost predicate Valid()
      reads this
    {
      activeSites == state.activeSites && siteWaiters == state.siteWaiters && Sound(state)
    }

    constructor ()
      ensures Valid() && state == START
    {
      activeSites, siteWaiters := 0, [];
      state := START;
    }

    /** True when the fetch has to wait for a hand-off. */
    method AcquireSite(id: string) returns (waits: bool)
      requires Valid() && Enabled(state, Acquire(id))
      modifies this
      ensures Valid() && state == Next(old(state), Acquire(id))
      ensures waits <==> id !in state.live
      ensures waits <==> |old(state).live| == 2
    {
      StepSound(state, Acquire(id));
      assert id !in state.granted + state.siteWaiters;
      waits := activeSites >= MAX_SITES;
      if waits {
        siteWaiters := siteWaiters + [id];
      } else {
        activeSites := activeSites + 1;
      }
      state := Next(state, Acquire(id));
    }

    /** The waiter the slot went to, if there was one. */
    method ReleaseSite(ghost id: string) returns (next: Option<string>)
      requires Valid() && Enabled(state, Release(id))
      modifies this
      ensures Valid() && state == Next(old(state), Release(id))
      ensures next == if old(siteWaiters) == [] then None else Some(old(siteWaiters)[0])
      ensures next.Some? ==> next.value in state.live && next.value !in old(state).live
      ensures next.None? ==> state.live == old(state).live - {id}
    {
      StepSound(state, Release(id));
      WaiterNotLive(state);
      next := None;
      state := Next(state, Release(id));
      if |siteWaiters| > 0 {
        next := Some(siteWaiters[0]);
        siteWaiters := siteWaiters[1..];
      } else if activeSites > 0 {
        activeSites := activeSites - 1;
      }
    }
  }

  lemma WaiterNotLive(s: Slots)
    requires Sound(s)
    ensures s.siteWaiters != [] ==> s.siteWaiters[0] !in s.live
  {
    if s.siteWaiters != [] {
      assert s.requested[|s.granted|] == s.siteWaiters[0];
      assert forall i :: 0 <= i < |s.granted| ==> s.granted[i] == s.requested[i];
    }
  }

  lemma AcquireSound(s: Slots, id: string)
    requires Sound(s) && id !in s.requested
    ensures Sound(Next(s, Acquire(id)))
  {
    var t := Next(s, Acquire(id));
    assert t.requested == t.granted + t.siteWaiters;
    assert forall x :: x in s.granted ==> x in s.requested;
    if s.activeSites < MAX_SITES {
      assert id !in s.live;
    }
  }

  lemma ReleaseSound(s: Slots, id: string)
    requires Sound(s) && id in s.live
    ensures Sound(Next(s, Release(id)))
  {
    var t := Next(s, Release(id));
    assert |s.live - {id}| == |s.live| - 1;
    if s.siteWaiters != [] {
      WaiterNotLive(s);
      assert s.siteWaiters == [s.siteWaiters[0]] + s.siteWaiters[1..];
      assert t.requested == t.granted + t.siteWaiters;
    }
  }

  lemma StepSound(s: Slots, e: Step)
    requires Sound(s) && Enabled(s, e)
    ensures Sound(Next(s, e))
  {
    if e.Acquire? {
      AcquireSound(s, e.id);
    } else {
      ReleaseSound(s, e.id);
    }
  }

  /**
   * In every interleaving: the counter is the number of live fetches and at most two, nobody
   * waits while a slot is free, and slots are granted in the order they were asked for.
   */
  lemma {:induction false} AlwaysSound(s: Slots, es: seq<Step>)
    requires Sound(s) && Run(s, es).Some?
    ensures var t := Run(s, es).value;
      && Sound(t) && t.activeSites == |t.live| <= 2
      && (t.siteWaiters != [] ==> |t.live| == 2)
      && t.granted <= t.requested && t.siteWaiters == t.requested[|t.granted|..]
  {
    if es != [] {
      AlwaysSound(s, es[..|es| - 1]);
      StepSound(Run(s, es[..|es| - 1]).value, es[|es| - 1]);
    }
  }

  function Releases(es: seq<Step>): nat {
    if es == [] then 0 else Releases(es[..|es| - 1]) + if es[|es| - 1].Release? then 1 else 0
  }

  /** `t` is where `s` leads after `r` releases, as far as those waiting in `s` can tell. */
  ghost predicate HandedOn(s: Slots, t: Slots, r: nat) {
    if r < |s.siteWaiters| then t.granted == s.granted + s.siteWaiters[..r] && s.siteWaiters[r..] <= t.siteWaiters
    else s.granted + s.siteWaiters <= t.granted
  }

  lemma StepHandsOn(s: Slots, mid: Slots, e: Step, r: nat)
    requires Sound(s) && Sound(mid) && Enabled(mid, e) && HandedOn(s, mid, r)
    ensures HandedOn(s, Next(mid, e), if e.Release? then r + 1 else r)
  {
    var w := s.siteWaiters;
    if r < |w| && e.Release? {
      assert w[r..][0] == w[r] == mid.siteWaiters[0];
      assert w[..r + 1] == w[..r] + [w[r]];
      assert w[r + 1..] == w[r..][1..];
      if r + 1 == |w| {
        assert w[..r + 1] == w;
      }
    }
  }

  lemma {:induction false} RunHandsOn(s: Slots, es: seq<Step>)
    requires Sound(s) && Run(s, es).Some?
    ensures HandedOn(s, Run(s, es).value, Releases(es))
  {
    if es == [] {
      assert s.siteWaiters[0..] == s.siteWaiters && s.granted + s.siteWaiters[..0] == s.granted;
    } else {
      RunHandsOn(s, es[..|es| - 1]);
      AlwaysSound(s, es[..|es| - 1]);
      StepHandsOn(s, Run(s, es[..|es| - 1]).value, es[|es| - 1], Releases(es[..|es| - 1]));
    }
  }

  /**
   * Whatever else happens, the fetch waiting at place `k` still waits, `r` places further on,
   * after `r <= k` releases, and has its slot after `k + 1`: no hand-off is lost or goes astray.
   */
  lemma WaiterServedInTurn(s: Slots, es: seq<Step>, k: nat)
    requires Sound(s) && k < |s.siteWaiters| && Run(s, es).Some?
    ensures var t := Run(s, es).value;
      var r := Releases(es);
      && (r <= k <==> s.siteWaiters[k] !in t.granted)
      && (r <= k ==> k - r < |t.siteWaiters| && t.siteWaiters[k - r] == s.siteWaiters[k])
  {
    hide Run, Releases, Next;
    var t := Run(s, es).value;
    var r := Releases(es);
    var w := s.siteWaiters;
    RunHandsOn(s, es);
    AlwaysSound(s, es);
    if r <= k {
      assert w[r..][k - r] == w[k];
      assert t.requested[|t.granted| + (k - r)] == w[k];
      assert forall i :: 0 <= i < |t.granted| ==> t.granted[i] == t.requested[i];
    } else {
      var done := if r < |w| then s.granted + w[..r] else s.granted + w;
      assert done[|s.granted| + k] == w[k];
      assert done <= t.granted;
    }
  }
}
