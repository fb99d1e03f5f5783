/**
 * Single-use links. A consume checks its link in one read and spends it in a later transaction, so
 * the transaction checks again what it relies on.
 */
module AccountTokens {
  import opened Basics

  datatype User =
    User(email: string, passwordHash: string, tokenVersion: nat, banned: bool, emailVerifiedAt: Option<int>)

  datatype ResetToken = ResetToken(userId: string, tokenHash: string, expiresAt: int, usedAt: Option<int>)

  datatype VerificationToken = VerificationToken(
    userId: string, email: string, tokenHash: string, expiresAt: int, usedAt: Option<int>
  )

  /** `nextId` is an id no row has had: ids are never reused. */
  datatype Tables = Tables(
    users: map<string, User>,
    resets: map<nat, ResetToken>,
    verifications: map<nat, VerificationToken>,
    nextId: nat
  )

  /** What the first read of a consume found, carried to its transaction. */
  datatype Ticket =
    | ResetTicket(tokenId: nat, userId: string)
    | VerificationTicket(tokenId: nat, userId: string, email: string)

  /** A signed session; `tv` is absent on those minted before versions existed. */
  datatype Session = Session(sub: string, tv: Option<nat>)

  // ----- what each transaction leaves behind ---------------------------------------------------------

  /** `deleteMany({ userId, usedAt: null })`. */
  function RetireResets(resets: map<nat, ResetToken>, u: string): map<nat, ResetToken> {
    map id | id in resets && !(resets[id].userId == u && resets[id].usedAt.None?) :: resets[id]
  }

  function RetireVerifications(tokens: map<nat, VerificationToken>, u: string): map<nat, VerificationToken> {
    map id | id in tokens && !(tokens[id].userId == u && tokens[id].usedAt.None?) :: tokens[id]
  }

  function NewReset(s: Tables, u: string, hash: string, expiresAt: int): Tables {
    s.(
      resets := RetireResets(s.resets, u)[s.nextId := ResetToken(u, hash, expiresAt, None)],
      nextId := s.nextId + 1)
  }

  function NewVerification(s: Tables, u: string, email: string, hash: string, expiresAt: int): Tables {
    s.(
      verifications := RetireVerifications(s.verifications, u)
        [s.nextId := VerificationToken(u, email, hash, expiresAt, None)],
      nextId := s.nextId + 1)
  }

  /** What the read of a reset link lets through: known, unused, unexpired, its user not banned. */
  predicate Spendable(s: Tables, id: nat, now: int) {
    && id in s.resets && s.resets[id].usedAt.None? && s.resets[id].expiresAt >= now
    && s.resets[id].userId in s.users && !s.users[s.resets[id].userId].banned
  }

  /** The same for a verification link, which must also match its user's address. */
  predicate Verifiable(s: Tables, id: nat, now: int) {
    && id in s.verifications && s.verifications[id].usedAt.None? && s.verifications[id].expiresAt >= now
    && s.verifications[id].userId in s.users && !s.users[s.verifications[id].userId].banned
    && s.verifications[id].email == s.users[s.verifications[id].userId].email
  }

  /** The guard of both transactions: the row is still there, and still unused. */
  predicate Flips(s: Tables, ticket: Ticket) {
    match ticket
    case ResetTicket(id, u) => id in s.resets && s.resets[id].usedAt.None? && u in s.users
    case VerificationTicket(id, _, _) => id in s.verifications && s.verifications[id].usedAt.None?
  }

  function NewPassword(s: Tables, u: string, passwordHash: string): Tables
    requires u in s.users
  {
    s.(users := s.users[u := s.users[u].(passwordHash := passwordHash, tokenVersion := s.users[u].tokenVersion + 1)])
  }

  function Reset(s: Tables, ticket: Ticket, passwordHash: string, now: int): Tables
    requires ticket.ResetTicket?
  {
    if !Flips(s, ticket) then s
    else NewPassword(
        s.(resets := s.resets[ticket.tokenId := s.resets[ticket.tokenId].(usedAt := Some(now))]),
        ticket.userId, passwordHash)
  }

  /** The user row the second update of a verification matches. */
  predicate Verifies(s: Tables, ticket: Ticket)
    requires ticket.VerificationTicket?
  {
    && ticket.userId in s.users
    && s.users[ticket.userId].email == ticket.email
    && s.users[ticket.userId].emailVerifiedAt.None?
  }

  function Verified(s: Tables, ticket: Ticket, now: int): Tables
    requires ticket.VerificationTicket?
  {
    if !Flips(s, ticket) then s
    else s.(
      verifications := s.verifications[ticket.tokenId := s.verifications[ticket.tokenId].(usedAt := Some(now))],
      users :=
        if Verifies(s, ticket)
        then s.users[ticket.userId := s.users[ticket.userId].(emailVerifiedAt := Some(now))]
        else s.users)
  }

  /** A session stands while its user exists, is not banned, and has not moved past its version. */
  predicate Stands(s: Tables, session: Session) {
    && session.sub in s.users
    && !s.users[session.sub].banned
    && Version(session) == s.users[session.sub].tokenVersion
  }

  function Version(session: Session): nat {
    if session.tv.Some? then session.tv.value else 0
  }

  // ----- the service ---------------------------------------------------------------------------------

  class UsersService {
    var users: map<string, User>
    var resets: map<nat, ResetToken>
    var verifications: map<nat, VerificationToken>
    var nextId: nat

    function Contents(): Tables
      reads this
    {
      Tables(users, resets, verifications, nextId)
    }

    /** The schema: hashes are unique, ids are issued in order, a token's user exists. */
    ghost predicate Valid()
      reads this
    {
      && (forall id :: id in resets ==> id < nextId && resets[id].userId in users)
      && (forall id :: id in verifications ==> id < nextId && verifications[id].userId in users)
      && (forall i, j :: i in resets && j in resets && i != j ==> resets[i].tokenHash != resets[j].tokenHash)
      && (forall i, j :: i in verifications && j in verifications && i != j ==>
           verifications[i].tokenHash != verifications[j].tokenHash)
    }

    /** Whatever its user had been sent before, exactly one of their unused links is left: the new one. */
    method CreateResetToken(userId: string, tokenHash: string, expiresAt: int)
      requires Valid() && userId in users
      requires forall id :: id in resets ==> resets[id].tokenHash != tokenHash
      modifies this
      ensures Valid() && Contents() == NewReset(old(Contents()), userId, tokenHash, expiresAt)
      ensures forall id :: id in resets && resets[id].userId == userId && resets[id].usedAt.None? ==>
        id == old(nextId) && resets[id].tokenHash == tokenHash
      ensures nextId == old(nextId) + 1 && old(nextId) in resets
        && resets[old(nextId)] == ResetToken(userId, tokenHash, expiresAt, None)
      ensures forall id :: id in old(resets) && (old(resets)[id].userId != userId || old(resets)[id].usedAt.Some?) ==>
        id in resets && resets[id] == old(resets)[id]
      ensures forall id :: id in resets && id != old(nextId) ==> id in old(resets)
      ensures users == old(users) && verifications == old(verifications)
    {
      resets := RetireResets(resets, userId);
      resets := resets[nextId := ResetToken(userId, tokenHash, expiresAt, None)];
      nextId := nextId + 1;
    }

    method CreateVerificationToken(userId: string, email: string, tokenHash: string, expiresAt: int)
      requires Valid() && userId in users
      requires forall id :: id in verifications ==> verifications[id].tokenHash != tokenHash
      modifies this
      ensures Valid() && Contents() == NewVerification(old(Contents()), userId, email, tokenHash, expiresAt)
      ensures forall id ::
        id in verifications && verifications[id].userId == userId && verifications[id].usedAt.None? ==>
          id == old(nextId) && verifications[id].email == email
      ensures nextId == old(nextId) + 1 && old(nextId) in verifications
        && verifications[old(nextId)] == VerificationToken(userId, email, tokenHash, expiresAt, None)
      ensures forall id ::
        id in old(verifications) && (old(verifications)[id].userId != userId || old(verifications)[id].usedAt.Some?) ==>
          id in verifications && verifications[id] == old(verifications)[id]
      ensures forall id :: id in verifications && id != old(nextId) ==> id in old(verifications)
      ensures users == old(users) && resets == old(resets)
    {
      verifications := RetireVerifications(verifications, userId);
      verifications := verifications[nextId := VerificationToken(userId, email, tokenHash, expiresAt, None)];
      nextId := nextId + 1;
    }

    /** The read of `consumeResetToken`. */
    method ReadReset(tokenHash: string, now: int) returns (ticket: Option<Ticket>)
      requires Valid()
      ensures ticket.Some? <==>
        exists id :: id in resets && resets[id].tokenHash == tokenHash && resets[id].usedAt.None?
          && now <= resets[id].expiresAt && resets[id].userId in users && !users[resets[id].userId].banned
      ensures ticket.Some? ==>
        && ticket.value.ResetTicket? && Spendable(Contents(), ticket.value.tokenId, now)
        && resets[ticket.value.tokenId].tokenHash == tokenHash
        && resets[ticket.value.tokenId].userId == ticket.value.userId
    {
      ticket := None;
      if id :| id in resets && resets[id].tokenHash == tokenHash {
        var token := resets[id];
        if token.usedAt.Some? || token.expiresAt < now || users[token.userId].banned {
          return;
        }
        ticket := Some(ResetTicket(id, token.userId));
      }
    }

    /** The transaction of `consumeResetToken`. */
    method SpendReset(ticket: Ticket, passwordHash: string, now: int) returns (ok: bool)
      requires Valid() && ticket.ResetTicket? && ticket.userId in users
      modifies this
      ensures Valid() && Contents() == Reset(old(Contents()), ticket, passwordHash, now)
      ensures ok <==> ticket.tokenId in old(resets) && old(resets)[ticket.tokenId].usedAt.None?
      ensures !ok ==> Contents() == old(Contents())
      ensures ok ==>
        && resets == old(resets)[ticket.tokenId := old(resets)[ticket.tokenId].(usedAt := Some(now))]
        && users == old(users)[ticket.userId := old(users)[ticket.userId].(
             passwordHash := passwordHash, tokenVersion := old(users)[ticket.userId].tokenVersion + 1)]
        && verifications == old(verifications) && nextId == old(nextId)
    {
      if ticket.tokenId !in resets || resets[ticket.tokenId].usedAt.Some? {
        return false;
      }
      resets := resets[ticket.tokenId := resets[ticket.tokenId].(usedAt := Some(now))];
      users := users[ticket.userId :=
        users[ticket.userId].(passwordHash := passwordHash, tokenVersion := users[ticket.userId].tokenVersion + 1)];
      ok := true;
    }

    /** Both, with nothing in between. */
    method ConsumeResetToken(tokenHash: string, passwordHash: string, now: int) returns (ok: bool)
      requires Valid()
      modifies this
      ensures Valid()
      ensures ok <==> exists id ::
        id in old(resets) && old(resets)[id].tokenHash == tokenHash && old(resets)[id].usedAt.None?
        && now <= old(resets)[id].expiresAt && !old(users)[old(resets)[id].userId].banned
      ensures !ok ==> Contents() == old(Contents())
      ensures ok ==> exists id ::
        && id in old(resets) && old(resets)[id].tokenHash == tokenHash
        && resets == old(resets)[id := old(resets)[id].(usedAt := Some(now))]
        && var u := old(resets)[id].userId;
           && users == old(users)[u := old(users)[u].(
                passwordHash := passwordHash, tokenVersion := old(users)[u].tokenVersion + 1)]
           && verifications == old(verifications) && nextId == old(nextId)
    {
      var ticket := ReadReset(tokenHash, now);
      if ticket.None? {
        return false;
      }
      ok := SpendReset(ticket.value, passwordHash, now);
      assert resets[ticket.value.tokenId].usedAt.Some?;
    }

    method SetPassword(id: string, passwordHash: string)
      requires Valid() && id in users
      modifies this
      ensures Valid() && Contents() == NewPassword(old(Contents()), id, passwordHash)
      ensures users == old(users)[id := old(users)[id].(
        passwordHash := passwordHash, tokenVersion := old(users)[id].tokenVersion + 1)]
      ensures resets == old(resets) && verifications == old(verifications) && nextId == old(nextId)
    {
      users := users[id := users[id].(passwordHash := passwordHash, tokenVersion := users[id].tokenVersion + 1)];
    }

    /** The read of `consumeVerificationToken`. */
    method ReadVerification(tokenHash: string, now: int) returns (ticket: Option<Ticket>)
      requires Valid()
      ensures ticket.Some? <==>
        exists id :: id in verifications && verifications[id].tokenHash == tokenHash
          && verifications[id].usedAt.None? && now <= verifications[id].expiresAt
          && verifications[id].userId in users && !users[verifications[id].userId].banned
          && verifications[id].email == users[verifications[id].userId].email
      ensures ticket.Some? ==>
        && ticket.value.VerificationTicket? && Verifiable(Contents(), ticket.value.tokenId, now)
        && verifications[ticket.value.tokenId].tokenHash == tokenHash
        && verifications[ticket.value.tokenId].userId == ticket.value.userId
        && verifications[ticket.value.tokenId].email == ticket.value.email
    {
      ticket := None;
      if id :| id in verifications && verifications[id].tokenHash == tokenHash {
        var token := verifications[id];
        if token.usedAt.Some? || token.expiresAt < now || users[token.userId].banned
          || token.email != users[token.userId].email
        {
          return;
        }
        ticket := Some(VerificationTicket(id, token.userId, token.email));
      }
    }

    /** The transaction: `newlyVerified` when the address was still the user's and still unverified. */
    method SpendVerification(ticket: Ticket, now: int) returns (newlyVerified: Option<bool>)
      requires Valid() && ticket.VerificationTicket?
      modifies this
      ensures Valid() && Contents() == Verified(old(Contents()), ticket, now)
      ensures newlyVerified.Some? <==>
        ticket.tokenId in old(verifications) && old(verifications)[ticket.tokenId].usedAt.None?
      ensures newlyVerified.None? ==> Contents() == old(Contents())
      ensures newlyVerified.Some? ==>
        && verifications == old(verifications)[ticket.tokenId :=
             old(verifications)[ticket.tokenId].(usedAt := Some(now))]
        && resets == old(resets) && nextId == old(nextId)
        && (newlyVerified.value <==>
             (ticket.userId in old(users) && old(users)[ticket.userId].email == ticket.email
              && old(users)[ticket.userId].emailVerifiedAt.None?))
        && users == (if newlyVerified.value
             then old(users)[ticket.userId := old(users)[ticket.userId].(emailVerifiedAt := Some(now))]
             else old(users))
    {
      if ticket.tokenId !in verifications || verifications[ticket.tokenId].usedAt.Some? {
        return None;
      }
      verifications := verifications[ticket.tokenId := verifications[ticket.tokenId].(usedAt := Some(now))];
      if ticket.userId in users && users[ticket.userId].email == ticket.email
        && users[ticket.userId].emailVerifiedAt.None?
      {
        users := users[ticket.userId := users[ticket.userId].(emailVerifiedAt := Some(now))];
        return Some(true);
      }
      newlyVerified := Some(false);
    }

    /** What every request asks of its session; one without a version counts as version 0. */
    method Validate(session: Session) returns (standing: bool)
      ensures standing == Stands(Contents(), session)
      ensures standing <==>
        (session.sub in users && !users[session.sub].banned
         && (session.tv == Some(users[session.sub].tokenVersion)
             || (session.tv.None? && users[session.sub].tokenVersion == 0)))
    {
      standing := session.sub in users && !users[session.sub].banned
        && Version(session) == users[session.sub].tokenVersion;
    }
  }
}
