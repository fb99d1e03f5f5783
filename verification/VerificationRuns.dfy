/** Verification links under interleaving: each is spent at most once, and only while it is the newest. */
module VerificationRuns {
  import opened Basics
  import opened AccountTokens
  import opened AccountRuns

  /** The step is a transaction that goes through and spends verification link `id`. */
  predicate Spends(s: Accounts, e: Step, id: nat)
    requires Enabled(s, e)
  {
    e.WriteVerification? && s.tickets[e.call].tokenId == id && Flips(s.tables, s.tickets[e.call])
  }

  function TimesSpent(s: Accounts, es: seq<Step>, id: nat): nat
    requires Run(s, es).Some?
  {
    if es == [] then 0
    else
      TimesSpent(s, es[..|es| - 1], id)
      + if Spends(Run(s, es[..|es| - 1]).value, es[|es| - 1], id) then 1 else 0
  }

  predicate Issues(e: Step, u: string) {
    e.CreateVerificationToken? && e.userId == u
  }

  /** Link `id` is still there to spend. */
  predicate Usable(s: Accounts, id: nat) {
    id in s.tables.verifications && s.tables.verifications[id].usedAt.None?
  }

  /** Issued at some time, and not to be spent any more. */
  predicate Gone(s: Accounts, id: nat) {
    id < s.tables.nextId && !Usable(s, id)
  }

  lemma StepKeepsGone(s: Accounts, e: Step, id: nat)
    requires Enabled(s, e) && Gone(s, id)
    ensures Gone(Next(s, e), id) && !Spends(s, e, id)
  {
  }

  /** A usable link stays so until it is spent or its user is sent another, and keeps its owner. */
  lemma StepOnUsable(s: Accounts, e: Step, id: nat)
    requires Enabled(s, e) && Usable(s, id) && id < s.tables.nextId
    ensures Usable(Next(s, e), id) <==> !Spends(s, e, id) && !Issues(e, s.tables.verifications[id].userId)
    ensures id < Next(s, e).tables.nextId
    ensures Usable(Next(s, e), id) ==>
      Next(s, e).tables.verifications[id].userId == s.tables.verifications[id].userId
  {
  }

  /** A link spent, or retired by a newer one, is never spent again, whatever calls are past their check. */
  lemma {:induction false} GoneNeverSpent(s: Accounts, es: seq<Step>, id: nat)
    requires Run(s, es).Some? && Gone(s, id)
    ensures Gone(Run(s, es).value, id) && TimesSpent(s, es, id) == 0
  {
    hide Next, Enabled, Gone, Spends;
    if es != [] {
      GoneNeverSpent(s, es[..|es| - 1], id);
      StepKeepsGone(Run(s, es[..|es| - 1]).value, es[|es| - 1], id);
    }
  }

  lemma SpendingMakesGone(s: Accounts, e: Step, id: nat)
    requires Sound(s) && Enabled(s, e) && Spends(s, e, id)
    ensures Gone(Next(s, e), id)
  {
    assert id in s.tables.verifications;
  }

  /** No verification link is spent twice. */
  lemma {:induction false} SpentAtMostOnce(s: Accounts, es: seq<Step>, id: nat)
    requires Sound(s) && Run(s, es).Some?
    ensures TimesSpent(s, es, id) <= 1
    ensures TimesSpent(s, es, id) == 1 ==> Gone(Run(s, es).value, id)
  {
    hide Next, Enabled, Gone, Spends, Sound;
    if es != [] {
      var mid, e := Run(s, es[..|es| - 1]).value, es[|es| - 1];
      SpentAtMostOnce(s, es[..|es| - 1], id);
      RunSound(s, es[..|es| - 1]);
      if Gone(mid, id) {
        StepKeepsGone(mid, e, id);
      } else if Spends(mid, e, id) {
        SpendingMakesGone(mid, e, id);
      }
    }
  }

  /** Once a newer link is issued, none sent to that user before is ever spent. */
  lemma NewerLinkRetires(s: Accounts, e: Step, es: seq<Step>, u: string, id: nat)
    requires Sound(s) && Enabled(s, e) && Issues(e, u) && Run(Next(s, e), es).Some?
    requires id in s.tables.verifications && s.tables.verifications[id].userId == u
    ensures TimesSpent(Next(s, e), es, id) == 0
  {
    assert id < s.tables.nextId;
    assert Gone(Next(s, e), id);
    GoneNeverSpent(Next(s, e), es, id);
  }

  ghost predicate NoneIssued(es: seq<Step>, u: string) {
    forall i :: 0 <= i < |es| ==> !Issues(es[i], u)
  }

  lemma NoneIssuedPush(es: seq<Step>, u: string)
    requires es != []
    ensures NoneIssued(es, u) <==> NoneIssued(es[..|es| - 1], u) && !Issues(es[|es| - 1], u)
  {
    assert forall i :: 0 <= i < |es| - 1 ==> es[..|es| - 1][i] == es[i];
  }

  lemma {:induction false} UsableExactlyWhile(s: Accounts, es: seq<Step>, u: string, id: nat)
    requires Run(s, es).Some? && Usable(s, id) && id < s.tables.nextId && s.tables.verifications[id].userId == u
    ensures var t := Run(s, es).value;
      && id < t.tables.nextId
      && (Usable(t, id) <==> NoneIssued(es, u) && TimesSpent(s, es, id) == 0)
      && (Usable(t, id) ==> t.tables.verifications[id].userId == u)
  {
    hide Next, Enabled, Spends, Issues;
    if es != [] {
      var mid, e := Run(s, es[..|es| - 1]).value, es[|es| - 1];
      UsableExactlyWhile(s, es[..|es| - 1], u, id);
      NoneIssuedPush(es, u);
      if Usable(mid, id) {
        StepOnUsable(mid, e, id);
      } else {
        StepKeepsGone(mid, e, id);
      }
    }
  }

  /** A link can be spent exactly while no newer one was issued to its user and it has not been spent. */
  lemma {:induction false} LinkLivesExactlyWhile(s: Accounts, e: Step, es: seq<Step>, u: string)
    requires Sound(s) && Enabled(s, e) && Issues(e, u) && Run(Next(s, e), es).Some?
    ensures var t, id := Run(Next(s, e), es).value, s.tables.nextId;
      Usable(t, id) <==> NoneIssued(es, u) && TimesSpent(Next(s, e), es, id) == 0
  {
    UsableExactlyWhile(Next(s, e), es, u, s.tables.nextId);
  }

  /**
   * A transaction that goes through spends a link that has not been spent since it was issued, and
   * since when its user has been sent no other.
   */
  lemma {:induction false} SpendsTheNewestLink(s: Accounts, issued: Step, es: seq<Step>, e: Step, u: string)
    requires Sound(s) && Enabled(s, issued) && Issues(issued, u) && Run(Next(s, issued), es).Some?
    requires Enabled(Run(Next(s, issued), es).value, e)
    requires Spends(Run(Next(s, issued), es).value, e, s.tables.nextId)
    ensures NoneIssued(es, u) && TimesSpent(Next(s, issued), es, s.tables.nextId) == 0
  {
    hide Run;
    LinkLivesExactlyWhile(s, issued, es, u);
  }
}
