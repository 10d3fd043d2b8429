/**
  Accepting an organization invitation (src/account/organization-invitation.service.ts): a client of
  the outbox whose membership, ACCEPTED status and event are one transaction.
 */
module Invitations {
  import opened Wrappers
  import opened Outbox

  type AccountId = nat
  type UserId = string
  type Token = string

  datatype InvitationStatus = PENDING | ACCEPTED | EXPIRED

  datatype Invitation = Invitation(organizationId: string, roleId: string, status: InvitationStatus, expiresAt: int)

  /** A row of `accounts` for an organization; leaving keeps the row with isActive = false. */
  datatype Membership = Membership(userId: UserId, organizationId: string, roleId: string, isActive: bool)

  datatype AcceptError = InvitationNotFound | UserNotFound | AlreadyUsed | Gone | AlreadyMember | DatabaseError

  const JOINED_TOPIC := "organization.member.joined"

  /** UQ_accounts_user_id_organization_id covers the inactive rows as well. */
  predicate IsTaken(memberships: map<AccountId, Membership>, userId: UserId, organizationId: string) {
    exists id :: id in memberships && memberships[id].userId == userId && memberships[id].organizationId == organizationId
  }

  /** The row enqueued to announce that the holder of membership `account` joined. */
  function JoinedEvent(id: EventId, accountText: string, membership: Membership, now: int): EventRow {
    Enqueued(id, JOINED_TOPIC,
             JoinedBody(membership.organizationId, accountText, membership.userId, Some(membership.roleId)),
             Some(membership.userId), now)
  }

  /** The message of `row`, as consumers get it, says that `userId` joined. */
  predicate AnnouncesJoining(row: EventRow, accountText: string, membership: Membership, now: int) {
    && HasTopic(row)
    && EmissionOf(row).topic == Text("organization.member.joined")
    && EmissionOf(row).payload
       == map["organizationId" := Text(membership.organizationId), "accountId" := Text(accountText),
              "memberUserId" := Text(membership.userId), "roleId" := Text(membership.roleId)]
        + map["eventId" := Reference(row.id), "occurredAt" := Number(now), "version" := Number(1),
              "actorUserId" := Text(membership.userId)]
  }

  lemma JoiningIsAnnounced(id: EventId, accountText: string, membership: Membership, now: int)
    ensures AnnouncesJoining(JoinedEvent(id, accountText, membership, now), accountText, membership, now)
  {
    var body := JoinedBody(membership.organizationId, accountText, membership.userId, Some(membership.roleId));
    ClientsPublishBodyAndEnvelope(id, JOINED_TOPIC, body, Some(membership.userId), now);
    MessageOfEnqueued(id, JOINED_TOPIC, body, Some(membership.userId), now);
  }

  predicate HasExpired(invitation: Invitation, now: int) {
    invitation.status == EXPIRED || (invitation.status == PENDING && invitation.expiresAt < now)
  }

  /** Why an acceptance is refused, in the order in which the checks are made. */
  function Refusal(invitations: map<Token, Invitation>, memberships: map<AccountId, Membership>, token: Token,
                   user: Option<UserId>, now: int): Option<AcceptError> {
    if token !in invitations then Some(InvitationNotFound)
    else if HasExpired(invitations[token], now) then Some(Gone)
    else if invitations[token].status == ACCEPTED then Some(AlreadyUsed)
    else if user.None? then Some(UserNotFound)
    else if IsTaken(memberships, user.value, invitations[token].organizationId) then Some(AlreadyMember)
    else None
  }

  /** The invitations after the lazy expiry of `token`: the first access after the deadline stores EXPIRED. */
  function Resolved(invitations: map<Token, Invitation>, token: Token, now: int): map<Token, Invitation> {
    if token in invitations && HasExpired(invitations[token], now)
    then invitations[token := invitations[token].(status := EXPIRED)]
    else invitations
  }

  /** `user` joined through `token`: the membership, the status and the event, and nothing else. */
  ghost predicate Joins(invitations: map<Token, Invitation>, memberships: map<AccountId, Membership>, events: Events,
                        token: Token, user: UserId, now: int, account: AccountId, event: EventId, accountText: string,
                        invitations': map<Token, Invitation>, memberships': map<AccountId, Membership>, events': Events)
    requires token in invitations
  {
    var membership := Membership(user, invitations[token].organizationId, invitations[token].roleId, true);
    && invitations' == invitations[token := invitations[token].(status := ACCEPTED)]
    && memberships' == memberships[account := membership]
    && events' == events[event := JoinedEvent(event, accountText, membership, now)]
  }

  /** What an accepted invitation left behind. */
  datatype Trail = Trail(account: AccountId, event: EventId)

  /**
    Accepted invitations, the memberships they created and the events that announce them
    correspond one to one, and no event announces anything else.
   */
  ghost predicate Consistent(invitations: map<Token, Invitation>, memberships: map<AccountId, Membership>,
                             events: Events, trails: map<Token, Trail>, accountText: AccountId -> string) {
    && (forall t :: t in trails <==> t in invitations && invitations[t].status == ACCEPTED)
    && (forall t :: t in trails ==> HasTrail(invitations[t], memberships, events, trails[t], accountText))
    && TrailsDiffer(trails)
    && EventsAreTrailed(events, trails)
  }

  ghost predicate TrailsDiffer(trails: map<Token, Trail>) {
    forall t, u :: t in trails && u in trails && t != u ==>
      trails[t].account != trails[u].account && trails[t].event != trails[u].event
  }

  ghost predicate EventsAreTrailed(events: Events, trails: map<Token, Trail>) {
    forall e :: e in events ==> exists t :: t in trails && trails[t].event == e
  }

  ghost predicate HasTrail(invitation: Invitation, memberships: map<AccountId, Membership>, events: Events,
                           trail: Trail, accountText: AccountId -> string) {
    && trail.account in memberships && trail.event in events
    && memberships[trail.account].organizationId == invitation.organizationId
    && events[trail.event] == JoinedEvent(trail.event, accountText(trail.account), memberships[trail.account],
                                          events[trail.event].createdAt)
  }

  /** A trail depends on its own rows only. */
  lemma TrailFrame(invitation: Invitation, memberships: map<AccountId, Membership>, events: Events, trail: Trail,
                   accountText: AccountId -> string, memberships': map<AccountId, Membership>, events': Events)
    requires HasTrail(invitation, memberships, events, trail, accountText)
    requires trail.account in memberships' && memberships'[trail.account] == memberships[trail.account]
    requires trail.event in events' && events'[trail.event] == events[trail.event]
    ensures HasTrail(invitation, memberships', events', trail, accountText)
  {
  }

  /** Installing all three staged tables keeps the correspondence. */
  lemma AcceptingKeepsConsistent(invitations: map<Token, Invitation>, memberships: map<AccountId, Membership>,
                                 events: Events, trails: map<Token, Trail>, accountText: AccountId -> string,
                                 token: Token, trail: Trail, membership: Membership, now: int,
                                 invitations': map<Token, Invitation>, memberships': map<AccountId, Membership>,
                                 events': Events, trails': map<Token, Trail>)
    requires Consistent(invitations, memberships, events, trails, accountText)
    requires token in invitations && invitations[token].status == PENDING
    requires trail.account !in memberships && trail.event !in events
    requires membership.organizationId == invitations[token].organizationId
    requires invitations' == invitations[token := invitations[token].(status := ACCEPTED)]
    requires memberships' == memberships[trail.account := membership]
    requires events' == events[trail.event := JoinedEvent(trail.event, accountText(trail.account), membership, now)]
    requires trails' == trails[token := trail]
    ensures Consistent(invitations', memberships', events', trails', accountText)
  {
    assert token !in trails;
    forall t | t in trails' ensures HasTrail(invitations'[t], memberships', events', trails'[t], accountText) {
      if t != token {
        TrailFrame(invitations[t], memberships, events, trails[t], accountText, memberships', events');
      }
    }
    forall t | t in trails ensures trails[t].account != trail.account && trails[t].event != trail.event {
      assert HasTrail(invitations[t], memberships, events, trails[t], accountText);
    }
    TrailAdded(events, trails, token, trail, events');
  }

  lemma TrailAdded(events: Events, trails: map<Token, Trail>, token: Token, trail: Trail, events': Events)
    requires TrailsDiffer(trails) && EventsAreTrailed(events, trails) && token !in trails
    requires forall t :: t in trails ==> trails[t].account != trail.account && trails[t].event != trail.event
    requires events'.Keys == events.Keys + {trail.event}
    ensures TrailsDiffer(trails[token := trail]) && EventsAreTrailed(events', trails[token := trail])
  {
    var trails' := trails[token := trail];
    forall e | e in events' ensures exists t :: t in trails' && trails'[t].event == e {
      if e == trail.event {
        assert trails'[token].event == e;
      } else {
        var t :| t in trails && trails[t].event == e;
        assert trails'[t].event == e;
      }
    }
  }

  /** Expiring a pending invitation touches no accepted one. */
  lemma ExpiringKeepsConsistent(invitations: map<Token, Invitation>, memberships: map<AccountId, Membership>,
                                events: Events, trails: map<Token, Trail>, accountText: AccountId -> string, token: Token)
    requires Consistent(invitations, memberships, events, trails, accountText)
    requires token in invitations && invitations[token].status == PENDING
    ensures Consistent(invitations[token := invitations[token].(status := EXPIRED)], memberships, events, trails, accountText)
  {
    forall t | t in trails ensures t != token {
      assert invitations[t].status == ACCEPTED;
    }
  }

  class OrganizationInvitationService {
    var invitations: map<Token, Invitation>
    var memberships: map<AccountId, Membership>
    var events: Events
    /** How an account id is printed in a message. */
    const accountText: AccountId -> string
    ghost var trails: map<Token, Trail>

    constructor (invitations: map<Token, Invitation>, memberships: map<AccountId, Membership>,
                 accountText: AccountId -> string)
      requires forall t :: t in invitations ==> invitations[t].status != ACCEPTED
      ensures Valid() && this.invitations == invitations && this.memberships == memberships && events == map[]
    {
      this.invitations, this.memberships, this.events := invitations, memberships, map[];
      this.accountText := accountText;
      this.trails := map[];
    }

    ghost predicate Valid()
      reads this
    {
      Consistent(invitations, memberships, events, trails, accountText)
    }

    method ResolveInvitation(token: Token, now: int) returns (invitation: Option<Invitation>)
      requires Valid()
      modifies this`invitations
      ensures Valid()
      ensures invitations == Resolved(old(invitations), token, now)
      ensures invitation == if token in invitations then Some(invitations[token]) else None
    {
      if token !in invitations {
        return None;
      }
      var found := invitations[token];
      if found.status == PENDING && found.expiresAt < now {
        found := found.(status := EXPIRED);
        ExpiringKeepsConsistent(invitations, memberships, events, trails, accountText, token);
        invitations := invitations[token := found];
      } else {
        assert invitations == invitations[token := found];
      }
      return Some(found);
    }

    /**
      `user` is the answer to the lookup by RFC; `accountId` and `eventId` are the ids the database
      would generate; `transactionFails` says that some statement of the transaction fails.
     */
    method AcceptByRfc(token: Token, user: Option<UserId>, now: int, accountId: AccountId, eventId: EventId,
                       transactionFails: bool)
      returns (result: Result<AccountId, AcceptError>)
      requires Valid() && accountId !in memberships && eventId !in events
      modifies this
      ensures Valid()
      ensures match Refusal(old(invitations), old(memberships), token, user, now)
              case Some(reason) => result == Failure(reason)
              case None => result == if transactionFails then Failure(DatabaseError) else Success(accountId)
      // All three together ...
      ensures result.Success? ==>
        Joins(old(invitations), old(memberships), old(events), token, user.value, now, accountId, eventId,
              accountText(accountId), invitations, memberships, events)
      // ... or none of them.
      ensures result.Failure? ==>
        memberships == old(memberships) && events == old(events) && invitations == Resolved(old(invitations), token, now)
      // Exactly when it succeeds, and what is announced then.
      ensures result.Success? <==>
        && token in old(invitations) && old(invitations)[token].status == PENDING
        && now <= old(invitations)[token].expiresAt && user.Some? && !transactionFails
        && !IsTaken(old(memberships), user.value, old(invitations)[token].organizationId)
      ensures result.Success? ==>
        && accountId in memberships && eventId in events && memberships[accountId].userId == user.value
        && memberships[accountId].organizationId == old(invitations)[token].organizationId
        && memberships[accountId].roleId == old(invitations)[token].roleId && memberships[accountId].isActive
        && AnnouncesJoining(events[eventId], accountText(accountId), memberships[accountId], now)
      ensures token in old(invitations) && old(invitations)[token].status == PENDING
              && old(invitations)[token].expiresAt < now ==>
        result == Failure(Gone) && token in invitations && invitations[token].status == EXPIRED
    {
      var resolved := ResolveInvitation(token, now);
      if resolved.None? {
        return Failure(InvitationNotFound);
      }
      if resolved.value.status == EXPIRED {
        return Failure(Gone);
      }
      if resolved.value.status != PENDING {
        return Failure(AlreadyUsed);
      }
      if user.None? {
        return Failure(UserNotFound);
      }
      result := FinalizeAcceptance(token, user.value, now, accountId, eventId, transactionFails);
      if result.Success? {
        JoiningIsAnnounced(eventId, accountText(accountId), memberships[accountId], now);
      }
    }

    /** The transaction: every statement works on staged copies, and the commit installs all of them. */
    method FinalizeAcceptance(token: Token, userId: UserId, now: int, accountId: AccountId, eventId: EventId,
                              transactionFails: bool)
      returns (result: Result<AccountId, AcceptError>)
      requires Valid() && accountId !in memberships && eventId !in events
      requires token in invitations && invitations[token].status == PENDING
      modifies this
      ensures Valid()
      ensures result == if IsTaken(old(memberships), userId, old(invitations)[token].organizationId) then Failure(AlreadyMember)
                        else if transactionFails then Failure(DatabaseError)
                        else Success(accountId)
      ensures result.Failure? ==>
        invitations == old(invitations) && memberships == old(memberships) && events == old(events)
      ensures result.Success? ==>
        Joins(old(invitations), old(memberships), old(events), token, userId, now, accountId, eventId,
              accountText(accountId), invitations, memberships, events)
    {
      var invitation := invitations[token];
      // The read before the transaction finds the active member; the unique index, any other row.
      var existing := exists id | id in memberships ::
        memberships[id].userId == userId && memberships[id].organizationId == invitation.organizationId && memberships[id].isActive;
      if existing {
        return Failure(AlreadyMember);
      }
      if IsTaken(memberships, userId, invitation.organizationId) {
        return Failure(AlreadyMember);
      }
      var membership := Membership(userId, invitation.organizationId, invitation.roleId, true);
      var stagedMemberships := memberships[accountId := membership];
      var stagedInvitations := invitations[token := invitation.(status := ACCEPTED)];
      var stagedEvents: Events := events[eventId := JoinedEvent(eventId, accountText(accountId), membership, now)];
      if transactionFails {
        return Failure(DatabaseError);
      }
      ghost var trail := Trail(accountId, eventId);
      AcceptingKeepsConsistent(invitations, memberships, events, trails, accountText, token, trail, membership, now,
                               stagedInvitations, stagedMemberships, stagedEvents, trails[token := trail]);
      trails := trails[token := trail];
      invitations, memberships, events := stagedInvitations, stagedMemberships, stagedEvents;
      return Success(accountId);
    }
  }
}
