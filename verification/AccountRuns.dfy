/**
 * Accounts under interleaving: every consume is two steps, its read and its transaction, and links
 * issued, passwords set, profiles edited and bans may fall between them.
 */
module AccountRuns {
  import opened Basics
  import opened AccountTokens

  /**
   * The tables, the clock, the consumes between their two steps, and three records a bystander
   * keeps: the sessions minted, each user's newest reset link, and the reset links spent, in order.
   */
  datatype Accounts = Accounts(
    tables: Tables,
    clock: int,
    tickets: map<string, Ticket>,
    sessions: seq<Session>,
    newest: map<string, nat>,
    spent: seq<nat>
  )

  /** A sign-in is the read of the user row its session is signed from; `RevokeAll` also ends sessions. */
  datatype Step =
    | Tick(to: int)
    | Register(userId: string, email: string, passwordHash: string)
    | SignIn(userId: string)
    | CreateResetToken(userId: string, tokenHash: string, expiresAt: int)
    | ReadReset(call: string, tokenId: nat)
    | WriteReset(call: string, passwordHash: string)
    | SetPassword(userId: string, passwordHash: string)
    | RevokeAll(userId: string)
    | Ban(userId: string)
    | Unban(userId: string)
    | CreateVerificationToken(userId: string, email: string, tokenHash: string, expiresAt: int)
    | ReadVerification(call: string, tokenId: nat)
    | WriteVerification(call: string)
    | EditProfile(userId: string, email: string)

  /** A read that finds nothing to spend ends its call, so only the others are steps. */
  predicate Enabled(s: Accounts, e: Step) {
    match e
    case Tick(to) => s.clock <= to
    case Register(u, _, _) => u !in s.tables.users
    case ReadReset(call, id) => call !in s.tickets && Spendable(s.tables, id, s.clock)
    case WriteReset(call, _) => call in s.tickets && s.tickets[call].ResetTicket?
    case ReadVerification(call, id) => call !in s.tickets && Verifiable(s.tables, id, s.clock)
    case WriteVerification(call) => call in s.tickets && s.tickets[call].VerificationTicket?
    case _ => e.userId in s.tables.users
  }

  function WithUser(s: Accounts, u: string, user: User): Accounts {
    s.(tables := s.tables.(users := s.tables.users[u := user]))
  }

  function Next(s: Accounts, e: Step): Accounts
    requires Enabled(s, e)
  {
    var users := s.tables.users;
    match e
    case Tick(to) => s.(clock := to)
    case Register(u, email, hash) => WithUser(s, u, User(email, hash, 0, false, None))
    case SignIn(u) => s.(sessions := s.sessions + [Session(u, Some(users[u].tokenVersion))])
    case CreateResetToken(u, hash, expiresAt) =>
      s.(tables := NewReset(s.tables, u, hash, expiresAt), newest := s.newest[u := s.tables.nextId])
    case ReadReset(call, id) => s.(tickets := s.tickets[call := ResetTicket(id, s.tables.resets[id].userId)])
    case WriteReset(call, hash) =>
      var ticket := s.tickets[call];
      s.(
        tables := Reset(s.tables, ticket, hash, s.clock),
        tickets := s.tickets - {call},
        spent := if Flips(s.tables, ticket) then s.spent + [ticket.tokenId] else s.spent)
    case SetPassword(u, hash) => s.(tables := NewPassword(s.tables, u, hash))
    case RevokeAll(u) => WithUser(s, u, users[u].(tokenVersion := users[u].tokenVersion + 1))
    case Ban(u) =>
      if users[u].banned then s
      else WithUser(s, u, users[u].(banned := true, tokenVersion := users[u].tokenVersion + 1))
    case Unban(u) => WithUser(s, u, users[u].(banned := false))
    case CreateVerificationToken(u, email, hash, expiresAt) =>
      s.(tables := NewVerification(s.tables, u, email, hash, expiresAt))
    case ReadVerification(call, id) =>
      var token := s.tables.verifications[id];
      s.(tickets := s.tickets[call := VerificationTicket(id, token.userId, token.email)])
    case WriteVerification(call) =>
      s.(tables := Verified(s.tables, s.tickets[call], s.clock), tickets := s.tickets - {call})
    case EditProfile(u, email) =>
      WithUser(s, u, users[u].(
        email := email,
        emailVerifiedAt := if email != users[u].email then None else users[u].emailVerifiedAt))
  }

  /** Where a run ends; nothing when one of its steps could not be taken. */
  function Run(s: Accounts, es: seq<Step>): Option<Accounts> {
    if es == [] then Some(s)
    else
      var mid := Run(s, es[..|es| - 1]);
      if mid.Some? && Enabled(mid.value, es[|es| - 1]) then Some(Next(mid.value, es[|es| - 1])) else None
  }

  // ----- what every interleaving keeps ---------------------------------------------------------------

  /** A link no consume can spend any more. */
  predicate Dead(s: Accounts, id: nat) {
    && id < s.tables.nextId
    && (id in s.tables.resets ==> s.tables.resets[id].usedAt.Some?)
  }

  /** An unused reset link is its user's newest. */
  predicate RowSound(s: Accounts, id: nat)
    requires id in s.tables.resets
  {
    var row := s.tables.resets[id];
    && id < s.tables.nextId && row.userId in s.tables.users
    && (row.usedAt.None? ==> row.userId in s.newest && s.newest[row.userId] == id)
  }

  predicate TicketSound(s: Accounts, t: Ticket) {
    && t.tokenId < s.tables.nextId && t.userId in s.tables.users
    && match t
       case ResetTicket(id, u) => id in s.tables.resets ==> s.tables.resets[id].userId == u
       case VerificationTicket(id, u, email) =>
         id in s.tables.verifications ==>
           s.tables.verifications[id].userId == u && s.tables.verifications[id].email == email
  }

  predicate SessionSound(s: Accounts, session: Session) {
    session.sub in s.tables.users && Version(session) <= s.tables.users[session.sub].tokenVersion
  }

  ghost predicate Sound(s: Accounts) {
    && (forall id :: id in s.tables.resets ==> RowSound(s, id))
    && (forall u :: u in s.newest ==> s.newest[u] < s.tables.nextId)
    && (forall id :: id in s.spent ==> Dead(s, id))
    && Distinct(s.spent)
    && (forall call :: call in s.tickets ==> TicketSound(s, s.tickets[call]))
    && (forall id :: id in s.tables.verifications ==> id < s.tables.nextId)
    && (forall session :: session in s.sessions ==> SessionSound(s, session))
  }

  /** A dead link stays dead: ids are not reused, and `usedAt` is never cleared. */
  lemma StepKeepsDead(s: Accounts, e: Step, id: nat)
    requires Enabled(s, e) && Dead(s, id)
    ensures Dead(Next(s, e), id)
  {
  }

  lemma StepKeepsVersions(s: Accounts, e: Step, u: string)
    requires Enabled(s, e) && u in s.tables.users
    ensures u in Next(s, e).tables.users
    ensures Next(s, e).tables.users[u].tokenVersion
         == s.tables.users[u].tokenVersion + if Revokes(s, e, u) then 1 else 0
  {
  }

  /** The steps that end every session of `u`: a reset that goes through, a new password, a new ban. */
  predicate Revokes(s: Accounts, e: Step, u: string)
    requires Enabled(s, e)
  {
    match e
    case WriteReset(call, _) => Flips(s.tables, s.tickets[call]) && s.tickets[call].userId == u
    case SetPassword(v, _) => v == u
    case RevokeAll(v) => v == u
    case Ban(v) => v == u && !s.tables.users[u].banned
    case _ => false
  }

  lemma StepKeepsRows(s: Accounts, e: Step)
    requires Enabled(s, e) && Sound(s)
    ensures forall id :: id in Next(s, e).tables.resets ==> RowSound(Next(s, e), id)
  {
    forall id | id in Next(s, e).tables.resets ensures RowSound(Next(s, e), id) {
      if id in s.tables.resets {
        assert RowSound(s, id);
      }
    }
  }

  lemma StepKeepsIds(s: Accounts, e: Step)
    requires Enabled(s, e) && Sound(s)
    ensures forall u :: u in Next(s, e).newest ==> Next(s, e).newest[u] < Next(s, e).tables.nextId
    ensures forall id :: id in Next(s, e).tables.verifications ==> id < Next(s, e).tables.nextId
  {
  }

  lemma StepKeepsTickets(s: Accounts, e: Step)
    requires Enabled(s, e) && Sound(s)
    ensures forall call :: call in Next(s, e).tickets ==> TicketSound(Next(s, e), Next(s, e).tickets[call])
  {
    forall call | call in Next(s, e).tickets ensures TicketSound(Next(s, e), Next(s, e).tickets[call]) {
      if call in s.tickets {
        assert TicketSound(s, s.tickets[call]);
      } else if e.ReadReset? {
        assert RowSound(s, e.tokenId);
      }
    }
  }

  lemma StepKeepsSpent(s: Accounts, e: Step)
    requires Enabled(s, e) && Sound(s)
    ensures forall id :: id in Next(s, e).spent ==> Dead(Next(s, e), id)
    ensures Distinct(Next(s, e).spent)
  {
    forall id | id in Next(s, e).spent ensures Dead(Next(s, e), id) {
      if id in s.spent {
        StepKeepsDead(s, e, id);
      } else {
        assert TicketSound(s, s.tickets[e.call]);
      }
    }
    if e.WriteReset? && Flips(s.tables, s.tickets[e.call]) {
      assert s.tickets[e.call].tokenId !in s.spent;
    }
  }

  lemma StepSound(s: Accounts, e: Step)
    requires Enabled(s, e) && Sound(s)
    ensures Sound(Next(s, e))
  {
    StepKeepsRows(s, e);
    StepKeepsIds(s, e);
    StepKeepsTickets(s, e);
    StepKeepsSpent(s, e);
    forall session | session in Next(s, e).sessions ensures SessionSound(Next(s, e), session) {
      if session in s.sessions {
        assert SessionSound(s, session);
        StepKeepsVersions(s, e, session.sub);
      }
    }
  }

  lemma {:induction false} RunSound(s: Accounts, es: seq<Step>)
    requires Sound(s) && Run(s, es).Some?
    ensures Sound(Run(s, es).value)
  {
    if es != [] {
      RunSound(s, es[..|es| - 1]);
      StepSound(Run(s, es[..|es| - 1]).value, es[|es| - 1]);
    }
  }

  // ----- a reset link is spent once, and only while it is the newest ------------------------------

  /** Nothing that happens to a dead link spends it: used once, or retired, it never resets again. */
  lemma {:induction false} DeadLinkNeverSpent(s: Accounts, es: seq<Step>, id: nat)
    requires Dead(s, id) && Run(s, es).Some?
    ensures Dead(Run(s, es).value, id)
    ensures multiset(Run(s, es).value.spent)[id] == multiset(s.spent)[id]
  {
    if es != [] {
      DeadLinkNeverSpent(s, es[..|es| - 1], id);
      StepKeepsDead(Run(s, es[..|es| - 1]).value, es[|es| - 1], id);
    }
  }

  /** The write that goes through spends a link not spent before, its user's newest, and sets the password. */
  lemma SpendsTheNewestLink(s: Accounts, call: string, hash: string)
    requires Sound(s) && Enabled(s, WriteReset(call, hash)) && Flips(s.tables, s.tickets[call])
    ensures var t, id, u := Next(s, WriteReset(call, hash)), s.tickets[call].tokenId, s.tickets[call].userId;
      && t.spent == s.spent + [id] && id !in s.spent && Dead(t, id)
      && u in s.newest && s.newest[u] == id
      && t.tables.users == s.tables.users[u := s.tables.users[u].(
           passwordHash := hash, tokenVersion := s.tables.users[u].tokenVersion + 1)]
  {
    var ticket := s.tickets[call];
    assert TicketSound(s, ticket);
    assert RowSound(s, ticket.tokenId);
    StepSound(s, WriteReset(call, hash));
    assert ticket.tokenId in Next(s, WriteReset(call, hash)).spent;
  }

  /** Once a newer link is issued, the older ones of that user are never spent, even by a call already past its read. */
  lemma NewerLinkRetiresOlder(s: Accounts, u: string, hash: string, expiresAt: int, es: seq<Step>, id: nat)
    requires Sound(s) && u in s.tables.users && id in s.tables.resets && s.tables.resets[id].userId == u
    requires Run(Next(s, CreateResetToken(u, hash, expiresAt)), es).Some?
    ensures multiset(Run(Next(s, CreateResetToken(u, hash, expiresAt)), es).value.spent)[id] == multiset(s.spent)[id]
  {
    assert RowSound(s, id);
    DeadLinkNeverSpent(Next(s, CreateResetToken(u, hash, expiresAt)), es, id);
  }

  /** `u`'s newest link, when it is `id`, is spent or still there to spend. */
  predicate Waiting(s: Accounts, u: string, id: nat) {
    && u in s.newest && s.newest[u] >= id
    && (s.newest[u] == id && id !in s.spent ==>
         id in s.tables.resets && s.tables.resets[id].userId == u && s.tables.resets[id].usedAt.None?)
  }

  lemma {:induction false} RunKeepsWaiting(s: Accounts, es: seq<Step>, u: string, id: nat)
    requires Sound(s) && Waiting(s, u, id) && Run(s, es).Some?
    ensures Waiting(Run(s, es).value, u, id)
  {
    hide Next, Waiting;
    if es != [] {
      RunKeepsWaiting(s, es[..|es| - 1], u, id);
      RunSound(s, es[..|es| - 1]);
      StepKeepsWaiting(Run(s, es[..|es| - 1]).value, es[|es| - 1], u, id);
    }
  }

  lemma StepKeepsWaiting(s: Accounts, e: Step, u: string, id: nat)
    requires Sound(s) && Waiting(s, u, id) && Enabled(s, e)
    ensures Waiting(Next(s, e), u, id)
  {
    if e.WriteReset? {
      assert TicketSound(s, s.tickets[e.call]);
    }
  }

  /** A link can still be spent exactly while it is its user's newest and has not been. */
  lemma LinkLivesExactlyWhile(s: Accounts, u: string, hash: string, expiresAt: int, es: seq<Step>)
    requires Sound(s) && u in s.tables.users && Run(Next(s, CreateResetToken(u, hash, expiresAt)), es).Some?
    ensures var t, id := Run(Next(s, CreateResetToken(u, hash, expiresAt)), es).value, s.tables.nextId;
      (id in t.tables.resets && t.tables.resets[id].usedAt.None?)
      <==> (u in t.newest && t.newest[u] == id && id !in t.spent)
  {
    var e, id := CreateResetToken(u, hash, expiresAt), s.tables.nextId;
    StepSound(s, e);
    RunSound(Next(s, e), es);
    RunKeepsWaiting(Next(s, e), es, u, id);
    RunKeepsOwner(Next(s, e), es, id);
    var t := Run(Next(s, e), es).value;
    if id in t.tables.resets && t.tables.resets[id].usedAt.None? {
      assert RowSound(t, id);
    }
  }

  lemma {:induction false} RunKeepsOwner(s: Accounts, es: seq<Step>, id: nat)
    requires Run(s, es).Some? && id in s.tables.resets && id < s.tables.nextId
    ensures s.tables.nextId <= Run(s, es).value.tables.nextId
    ensures id in Run(s, es).value.tables.resets ==>
      Run(s, es).value.tables.resets[id].userId == s.tables.resets[id].userId
  {
    hide Next, Enabled;
    if es != [] {
      RunKeepsOwner(s, es[..|es| - 1], id);
      StepKeepsOwner(Run(s, es[..|es| - 1]).value, es[|es| - 1], id, s.tables.resets[id].userId);
    }
  }

  lemma StepKeepsOwner(s: Accounts, e: Step, id: nat, u: string)
    requires Enabled(s, e) && id < s.tables.nextId
    requires id in s.tables.resets ==> s.tables.resets[id].userId == u
    ensures s.tables.nextId <= Next(s, e).tables.nextId
    ensures id in Next(s, e).tables.resets ==> Next(s, e).tables.resets[id].userId == u
  {
  }

  // ----- sessions -------------------------------------------------------------------------------------

  /** How often a run ended every session of `u`. */
  function Revocations(s: Accounts, es: seq<Step>, u: string): nat
    requires Run(s, es).Some?
  {
    if es == [] then 0
    else
      Revocations(s, es[..|es| - 1], u)
      + if Revokes(Run(s, es[..|es| - 1]).value, es[|es| - 1], u) then 1 else 0
  }

  lemma {:induction false} VersionCountsRevocations(s: Accounts, es: seq<Step>, u: string)
    requires Run(s, es).Some? && u in s.tables.users
    ensures u in Run(s, es).value.tables.users
    ensures Run(s, es).value.tables.users[u].tokenVersion == s.tables.users[u].tokenVersion + Revocations(s, es, u)
  {
    if es != [] {
      VersionCountsRevocations(s, es[..|es| - 1], u);
      StepKeepsVersions(Run(s, es[..|es| - 1]).value, es[|es| - 1], u);
    }
  }

  /** A session stands exactly while its user is not banned and nothing has revoked it since. */
  lemma {:induction false} SessionStandsExactlyWhile(s: Accounts, u: string, es: seq<Step>)
    requires u in s.tables.users && Run(Next(s, SignIn(u)), es).Some?
    ensures var signedIn := Next(s, SignIn(u));
      var t, session := Run(signedIn, es).value, signedIn.sessions[|s.sessions|];
      && session.sub == u && u in t.tables.users
      && (Stands(t.tables, session) <==> !t.tables.users[u].banned && Revocations(signedIn, es, u) == 0)
  {
    VersionCountsRevocations(Next(s, SignIn(u)), es, u);
  }

  /** A reset, a new password or a ban ends every session minted before it, for good. */
  lemma RevokedSessionsNeverReturn(s: Accounts, e: Step, es: seq<Step>, session: Session)
    requires Sound(s) && Enabled(s, e) && Run(Next(s, e), es).Some?
    requires session in s.sessions && session.sub in s.tables.users
    requires (e.SetPassword? && e.userId == session.sub)
      || (e.RevokeAll? && e.userId == session.sub)
      || (e.Ban? && e.userId == session.sub && !s.tables.users[session.sub].banned)
      || (e.WriteReset? && s.tickets[e.call].userId == session.sub && s.tickets[e.call].tokenId in s.tables.resets
          && s.tables.resets[s.tickets[e.call].tokenId].usedAt.None?)
    ensures !Stands(Run(Next(s, e), es).value.tables, session)
  {
    assert SessionSound(s, session);
    StepKeepsVersions(s, e, session.sub);
    VersionCountsRevocations(Next(s, e), es, session.sub);
  }

  // ----- verified addresses ---------------------------------------------------------------------------

  /** Some used link of `u` was sent to `email`. */
  ghost predicate LinkUsed(s: Accounts, u: string, email: string) {
    exists id :: id in s.tables.verifications && s.tables.verifications[id].usedAt.Some?
      && s.tables.verifications[id].userId == u && s.tables.verifications[id].email == email
  }

  /** A verified address is as it was at the start, or a used link was sent to it. */
  ghost predicate AddressProved(start: Accounts, s: Accounts, u: string)
    requires u in s.tables.users
  {
    var user := s.tables.users[u];
    user.emailVerifiedAt.None? || LinkUsed(s, u, user.email)
    || (u in start.tables.users && start.tables.users[u].email == user.email
        && start.tables.users[u].emailVerifiedAt == user.emailVerifiedAt)
  }

  /** The one step that verifies anyone does so for the address its link was sent to, still the user's. */
  lemma VerifiesOnlyItsAddress(s: Accounts, e: Step, u: string)
    requires Sound(s) && Enabled(s, e) && u in s.tables.users
    ensures u in Next(s, e).tables.users
    ensures var before, after := s.tables.users[u], Next(s, e).tables.users[u];
      after.emailVerifiedAt.Some? && after.emailVerifiedAt != before.emailVerifiedAt ==>
        && e.WriteVerification? && s.tickets[e.call].userId == u
        && s.tickets[e.call].email == before.email == after.email
        && LinkUsed(Next(s, e), u, after.email) && before.emailVerifiedAt.None?
    ensures Next(s, e).tables.users[u].emailVerifiedAt.Some? ==>
      Next(s, e).tables.users[u].email == s.tables.users[u].email
  {
    var t := Next(s, e);
    if e.WriteVerification? && Flips(s.tables, s.tickets[e.call]) {
      assert TicketSound(s, s.tickets[e.call]);
      var id := s.tickets[e.call].tokenId;
      assert id in t.tables.verifications && t.tables.verifications[id].usedAt.Some?;
    }
  }

  lemma StepKeepsLinkUsed(s: Accounts, e: Step, u: string, email: string)
    requires Sound(s) && Enabled(s, e) && LinkUsed(s, u, email)
    ensures LinkUsed(Next(s, e), u, email)
  {
    var id :| id in s.tables.verifications && s.tables.verifications[id].usedAt.Some?
      && s.tables.verifications[id].userId == u && s.tables.verifications[id].email == email;
    assert id in Next(s, e).tables.verifications && Next(s, e).tables.verifications[id].usedAt.Some?;
  }

  lemma {:induction false} VerifiedAddressesAreProved(s: Accounts, es: seq<Step>, u: string)
    requires Sound(s) && Run(s, es).Some? && u in Run(s, es).value.tables.users
    ensures AddressProved(s, Run(s, es).value, u)
  {
    if es != [] {
      var e, mid := es[|es| - 1], Run(s, es[..|es| - 1]).value;
      RunSound(s, es[..|es| - 1]);
      if u in mid.tables.users {
        VerifiedAddressesAreProved(s, es[..|es| - 1], u);
        VerifiesOnlyItsAddress(mid, e, u);
        if LinkUsed(mid, u, mid.tables.users[u].email) {
          StepKeepsLinkUsed(mid, e, u, mid.tables.users[u].email);
        }
      }
    }
  }

  /** A verified address stays verified, since the same moment, until its user's address is edited to another. */
  lemma {:induction false} VerifiedUntilEdited(s: Accounts, es: seq<Step>, u: string)
    requires Run(s, es).Some? && u in s.tables.users && s.tables.users[u].emailVerifiedAt.Some?
    requires forall i :: 0 <= i < |es| && es[i].EditProfile? && es[i].userId == u ==>
      es[i].email == s.tables.users[u].email
    ensures u in Run(s, es).value.tables.users
    ensures var user := Run(s, es).value.tables.users[u];
      user.email == s.tables.users[u].email && user.emailVerifiedAt == s.tables.users[u].emailVerifiedAt
  {
    hide Next, Enabled;
    if es != [] {
      VerifiedUntilEdited(s, es[..|es| - 1], u);
      StepKeepsVerified(Run(s, es[..|es| - 1]).value, es[|es| - 1], u);
    }
  }

  lemma StepKeepsVerified(s: Accounts, e: Step, u: string)
    requires Enabled(s, e) && u in s.tables.users && s.tables.users[u].emailVerifiedAt.Some?
    requires e.EditProfile? && e.userId == u ==> e.email == s.tables.users[u].email
    ensures u in Next(s, e).tables.users
    ensures Next(s, e).tables.users[u].email == s.tables.users[u].email
    ensures Next(s, e).tables.users[u].emailVerifiedAt == s.tables.users[u].emailVerifiedAt
  {
  }

  // ----- what the write does not check ------------------------------------------------------------

  /**
   * Bans are checked at the read only: one that lands before the transaction does not stop the
   * password from being changed, though no session stands while it lasts.
   */
  lemma BanAfterReadStillResets(s: Accounts, call: string, id: nat, hash: string)
    requires Sound(s) && Enabled(s, ReadReset(call, id))
    ensures var read, u := Next(s, ReadReset(call, id)), s.tables.resets[id].userId;
      && Enabled(read, Ban(u)) && Enabled(Next(read, Ban(u)), WriteReset(call, hash))
      && var t := Next(Next(read, Ban(u)), WriteReset(call, hash));
         && t.spent == s.spent + [id] && u in t.tables.users
         && t.tables.users[u].passwordHash == hash && t.tables.users[u].banned
         && forall session: Session :: session.sub == u ==> !Stands(t.tables, session)
  {
  }

  predicate Decides(e: Step, u: string) {
    e == Ban(u) || e == Unban(u)
  }

  predicate LastBanAt(es: seq<Step>, u: string, i: nat) {
    i < |es| && es[i] == Ban(u) && forall j :: i < j < |es| ==> !Decides(es[j], u)
  }

  /** Of the bans and unbans of `u` in the run, the newest is a ban. */
  ghost predicate NewestIsBan(es: seq<Step>, u: string) {
    exists i: nat :: LastBanAt(es, u, i)
  }

  lemma NewestIsBanPush(es: seq<Step>, e: Step, u: string)
    ensures NewestIsBan(es + [e], u) <==> e == Ban(u) || (e != Unban(u) && NewestIsBan(es, u))
  {
    forall i: nat | i < |es|
      ensures LastBanAt(es + [e], u, i) <==> LastBanAt(es, u, i) && !Decides(e, u)
    {
      assert (es + [e])[|es|] == e;
      assert forall j :: 0 <= j < |es| ==> (es + [e])[j] == es[j];
    }
    assert LastBanAt(es + [e], u, |es|) <==> e == Ban(u);
    if NewestIsBan(es, u) {
      var i: nat :| LastBanAt(es, u, i);
      assert LastBanAt(es + [e], u, i) <==> !Decides(e, u);
    }
  }

  lemma NoneBanned(u: string)
    ensures !NewestIsBan([], u)
  {
  }

  lemma StepBans(s: Accounts, e: Step, u: string)
    requires Enabled(s, e) && u in s.tables.users
    ensures u in Next(s, e).tables.users
    ensures Next(s, e).tables.users[u].banned <==>
      e == Ban(u) || (e != Unban(u) && s.tables.users[u].banned)
  {
  }

  lemma {:induction false} BannedAfterRun(s: Accounts, es: seq<Step>, u: string)
    requires Run(s, es).Some? && u in s.tables.users && !s.tables.users[u].banned
    ensures u in Run(s, es).value.tables.users
    ensures Run(s, es).value.tables.users[u].banned <==> NewestIsBan(es, u)
  {
    hide Next, Enabled, NewestIsBan;
    if es == [] {
      NoneBanned(u);
    } else {
      NewestIsBanPush(es[..|es| - 1], es[|es| - 1], u);
      assert es == es[..|es| - 1] + [es[|es| - 1]];
      BannedAfterRun(s, es[..|es| - 1], u);
      StepBans(Run(s, es[..|es| - 1]).value, es[|es| - 1], u);
    }
  }

  /**
   * Exactly when a reset reaches a banned user: whatever ran since the call's read, a transaction
   * that goes through sets the password of a user who is banned at that moment if and only if the
   * newest ban or unban of that user since the read is a ban.
   */
  lemma {:induction false} ResetReachesBannedExactlyWhen(
    s: Accounts, call: string, id: nat, es: seq<Step>, hash: string
  )
    requires Sound(s) && Enabled(s, ReadReset(call, id)) && Run(Next(s, ReadReset(call, id)), es).Some?
    requires var t := Run(Next(s, ReadReset(call, id)), es).value;
      && call in t.tickets && t.tickets[call] == ResetTicket(id, s.tables.resets[id].userId)
      && Flips(t.tables, t.tickets[call])
    ensures var t, u := Run(Next(s, ReadReset(call, id)), es).value, s.tables.resets[id].userId;
      && Enabled(t, WriteReset(call, hash))
      && var after := Next(t, WriteReset(call, hash));
         && after.spent == t.spent + [id] && u in after.tables.users
         && after.tables.users[u].passwordHash == hash
         && (after.tables.users[u].banned <==> NewestIsBan(es, u))
         && (NewestIsBan(es, u) ==> forall session: Session :: session.sub == u ==> !Stands(after.tables, session))
  {
    var u := s.tables.resets[id].userId;
    BannedAfterRun(Next(s, ReadReset(call, id)), es, u);
  }
}
