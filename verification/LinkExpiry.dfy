/**
 * Expiry under interleaving: a link is checked against the clock when its call reads it, so a call
 * that reads after the expiry never spends it, whatever else runs.
 */
module LinkExpiry {
  import opened Basics
  import opened AccountTokens
  import opened AccountRuns
  import opened VerificationRuns

  /** The reset link `id` was issued, and if it is still in its table its time is past. */
  predicate ResetLate(s: Accounts, id: nat) {
    id < s.tables.nextId && (id in s.tables.resets ==> s.tables.resets[id].expiresAt < s.clock)
  }

  predicate VerificationLate(s: Accounts, id: nat) {
    id < s.tables.nextId && (id in s.tables.verifications ==> s.tables.verifications[id].expiresAt < s.clock)
  }

  predicate ReadsReset(s: Accounts, call: string, id: nat) {
    call in s.tickets && s.tickets[call].ResetTicket? && s.tickets[call].tokenId == id
  }

  predicate ReadsVerification(s: Accounts, call: string, id: nat) {
    call in s.tickets && s.tickets[call].VerificationTicket? && s.tickets[call].tokenId == id
  }

  /** A read of a link finds something to spend exactly while the link is good. */
  lemma ReadsExactlyWhenGood(s: Accounts, call: string, id: nat)
    requires call !in s.tickets
    ensures Enabled(s, ReadReset(call, id)) <==>
      (id in s.tables.resets && s.tables.resets[id].usedAt.None? && s.clock <= s.tables.resets[id].expiresAt
       && s.tables.resets[id].userId in s.tables.users && !s.tables.users[s.tables.resets[id].userId].banned)
    ensures Enabled(s, ReadVerification(call, id)) <==>
      (id in s.tables.verifications && s.tables.verifications[id].usedAt.None?
       && s.clock <= s.tables.verifications[id].expiresAt
       && s.tables.verifications[id].userId in s.tables.users
       && !s.tables.users[s.tables.verifications[id].userId].banned
       && s.tables.users[s.tables.verifications[id].userId].email == s.tables.verifications[id].email)
  {
  }

  /** A link whose time is past stays so, and no call gets past its check. */
  lemma StepKeepsResetLate(s: Accounts, e: Step, id: nat)
    requires Enabled(s, e) && ResetLate(s, id)
    ensures ResetLate(Next(s, e), id)
    ensures forall call :: ReadsReset(Next(s, e), call, id) ==> ReadsReset(s, call, id)
  {
  }

  lemma StepKeepsVerificationLate(s: Accounts, e: Step, id: nat)
    requires Enabled(s, e) && VerificationLate(s, id)
    ensures VerificationLate(Next(s, e), id)
    ensures forall call :: ReadsVerification(Next(s, e), call, id) ==> ReadsVerification(s, call, id)
  {
  }

  lemma {:induction false} LateResetKeepsReaders(s: Accounts, es: seq<Step>, id: nat)
    requires Run(s, es).Some? && ResetLate(s, id)
    ensures ResetLate(Run(s, es).value, id)
    ensures forall call :: ReadsReset(Run(s, es).value, call, id) ==> ReadsReset(s, call, id)
  {
    hide Next, Enabled, ResetLate, ReadsReset;
    if es != [] {
      LateResetKeepsReaders(s, es[..|es| - 1], id);
      StepKeepsResetLate(Run(s, es[..|es| - 1]).value, es[|es| - 1], id);
    }
  }

  lemma {:induction false} LateVerificationKeepsReaders(s: Accounts, es: seq<Step>, id: nat)
    requires Run(s, es).Some? && VerificationLate(s, id)
    ensures VerificationLate(Run(s, es).value, id)
    ensures forall call :: ReadsVerification(Run(s, es).value, call, id) ==> ReadsVerification(s, call, id)
  {
    hide Next, Enabled, VerificationLate, ReadsVerification;
    if es != [] {
      LateVerificationKeepsReaders(s, es[..|es| - 1], id);
      StepKeepsVerificationLate(Run(s, es[..|es| - 1]).value, es[|es| - 1], id);
    }
  }

  /** Once a reset link's time is past, only a call already past its check can spend it. */
  lemma {:induction false} LateReadNeverResets(s: Accounts, es: seq<Step>, call: string, hash: string, id: nat)
    requires Run(s, es).Some? && id < s.tables.nextId
    requires id in s.tables.resets ==> s.clock > s.tables.resets[id].expiresAt
    requires Enabled(Run(s, es).value, WriteReset(call, hash))
    requires Next(Run(s, es).value, WriteReset(call, hash)).spent == Run(s, es).value.spent + [id]
    ensures call in s.tickets && s.tickets[call].ResetTicket? && s.tickets[call].tokenId == id
  {
    hide Run;
    var t := Run(s, es).value;
    LateResetKeepsReaders(s, es, id);
    assert Next(t, WriteReset(call, hash)).spent[|t.spent|] == id;
    assert ReadsReset(t, call, id);
  }

  /** So when no call is, it is not spent in any run. */
  lemma {:induction false} ExpiredResetNeverSpent(s: Accounts, es: seq<Step>, id: nat)
    requires Run(s, es).Some? && id < s.tables.nextId
    requires id in s.tables.resets ==> s.clock > s.tables.resets[id].expiresAt
    requires forall call :: call in s.tickets && s.tickets[call].ResetTicket? ==> s.tickets[call].tokenId != id
    ensures multiset(Run(s, es).value.spent)[id] == multiset(s.spent)[id]
  {
    if es != [] {
      ExpiredResetNeverSpent(s, es[..|es| - 1], id);
      LateResetKeepsReaders(s, es[..|es| - 1], id);
      SpendsOnlyWhatWasRead(Run(s, es[..|es| - 1]).value, es[|es| - 1], id);
    }
  }

  lemma SpendsOnlyWhatWasRead(s: Accounts, e: Step, id: nat)
    requires Enabled(s, e)
    ensures Next(s, e).spent == s.spent
      || (exists call :: ReadsReset(s, call, id)) || multiset(Next(s, e).spent)[id] == multiset(s.spent)[id]
  {
    if e.WriteReset? && s.tickets[e.call].tokenId == id {
      assert ReadsReset(s, e.call, id);
    }
  }

  /** The same for a verification link. */
  lemma {:induction false} ExpiredVerificationNeverSpent(s: Accounts, es: seq<Step>, id: nat)
    requires Run(s, es).Some? && id < s.tables.nextId
    requires id in s.tables.verifications ==> s.clock > s.tables.verifications[id].expiresAt
    requires forall call ::
      call in s.tickets && s.tickets[call].VerificationTicket? ==> s.tickets[call].tokenId != id
    ensures TimesSpent(s, es, id) == 0
  {
    if es != [] {
      ExpiredVerificationNeverSpent(s, es[..|es| - 1], id);
      LateVerificationKeepsReaders(s, es[..|es| - 1], id);
      var mid, e := Run(s, es[..|es| - 1]).value, es[|es| - 1];
      assert Spends(mid, e, id) ==> ReadsVerification(mid, e.call, id);
    }
  }

  lemma {:induction false} LateReadNeverVerifies(s: Accounts, es: seq<Step>, e: Step, id: nat)
    requires Run(s, es).Some? && id < s.tables.nextId
    requires id in s.tables.verifications ==> s.clock > s.tables.verifications[id].expiresAt
    requires Enabled(Run(s, es).value, e) && Spends(Run(s, es).value, e, id)
    ensures e.call in s.tickets && s.tickets[e.call].VerificationTicket? && s.tickets[e.call].tokenId == id
  {
    hide Run;
    LateVerificationKeepsReaders(s, es, id);
    assert ReadsVerification(Run(s, es).value, e.call, id);
  }
}
