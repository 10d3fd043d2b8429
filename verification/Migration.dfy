/**
  The migration that merges accounts and memberships and its reverse
  (src/migrations/1784300000005-MergeAccountAndOrganization.ts).

  Tables are maps from primary key to row, and every data statement of `up` and `down` is a
  function on them. Renaming a table changes no row, so a table keeps one field under both of its
  names. What the database decides freely (generated uuids, which matching row an UPDATE … FROM
  uses, which row LIMIT 1 returns) is a parameter. A violated foreign key aborts the migration.
 */
module Migration {
  import opened Wrappers

  type Id = nat

  datatype TenantType = PERSONAL | ORGANIZATION

  datatype Tenant = Tenant(kind: TenantType, createdAt: int)
  datatype Member = Member(accountId: Id, userId: Id, roleId: Option<Id>, isActive: bool, position: Option<string>)
  datatype User = User(email: string, password: string)
  datatype Details = Details(name: string, isActive: bool, address: Option<string>, rfc: Option<string>,
                             domainAllowed: Option<string>, phoneNumber: Option<string>, indexDocuments: bool)
  datatype Document = Document(createdBy: Id, accountId: Id, organizationId: Option<Id>)

  datatype Organization = Organization(details: Details, legacyAccountId: Option<Id>)

  datatype Status = Active | Removed
  datatype Account = Account(userId: Id, kind: TenantType, organizationId: Option<Id>, roleId: Option<Id>, createdAt: int,
                             status: Status, email: string, password: string, isActive: bool, joinedAt: int,
                             position: Option<string>)

  /**
    `tenants` is the table accounts, later accounts_legacy_tenant; `members` is account_members,
    later account_members_deprecated. The last three exist only before or only after `up`.
   */
  datatype Tables = Tables(users: map<Id, User>, tenants: map<Id, Tenant>, members: map<Id, Member>,
                           roleOrganizations: map<Id, Option<Id>>, subscribed: set<Id>, documents: map<Id, Document>,
                           details: Option<map<Id, Details>>, organizations: Option<map<Id, Organization>>,
                           accounts: Option<map<Id, Account>>)

  // ------------------------------------------------------------------------------------------
  // The statements of up.
  // ------------------------------------------------------------------------------------------

  /** uuid_generate_v4() for every row of organization_details: never the same twice. */
  ghost predicate GeneratesIds(details: map<Id, Details>, orgId: map<Id, Id>) {
    && orgId.Keys == details.Keys
    && forall a, b :: a in orgId && b in orgId && orgId[a] == orgId[b] ==> a == b
  }

  function OrganizationIdOf(orgId: map<Id, Id>, tenant: Id): Option<Id> {
    if tenant in orgId then Some(orgId[tenant]) else None
  }

  /** U1: INSERT INTO organizations … SELECT … FROM organization_details. */
  ghost predicate IsInsertion(details: map<Id, Details>, orgId: map<Id, Id>, organizations: map<Id, Organization>)
    requires details.Keys <= orgId.Keys
  {
    && (forall a :: a in details ==> orgId[a] in organizations)
    && (forall a :: a in details ==> organizations[orgId[a]] == Organization(details[a], Some(a)))
    && (forall o :: o in organizations ==> organizations[o].legacyAccountId.Some?)
    && (forall o :: o in organizations ==> organizations[o].legacyAccountId.value in details)
    && (forall o :: o in organizations ==> orgId[organizations[o].legacyAccountId.value] == o)
  }

  /** U3: one merged account per membership, joined to its tenant, its user and, if any, its organization. */
  function MergeAccounts(t: Tables, orgId: map<Id, Id>): map<Id, Account> {
    map m | m in t.members && t.members[m].accountId in t.tenants && t.members[m].userId in t.users ::
      var member := t.members[m];
      var tenant, user := t.tenants[member.accountId], t.users[member.userId];
      Account(member.userId, tenant.kind, OrganizationIdOf(orgId, member.accountId), member.roleId, tenant.createdAt,
              if member.isActive then Active else Removed, user.email, user.password, member.isActive,
              tenant.createdAt, member.position)
  }

  /** U6, first update: the organization of the documents of organization tenants. */
  function AssignOrganization(t: Tables, orgId: map<Id, Id>, d: Document): Document {
    if d.accountId in t.tenants && t.tenants[d.accountId].kind == ORGANIZATION
    then d.(organizationId := OrganizationIdOf(orgId, d.accountId))
    else d
  }

  /** The accounts the second update may move a document to: its creator's, in the same context. */
  function Matching(accounts: map<Id, Account>, d: Document): set<Id> {
    set a | a in accounts && accounts[a].userId == d.createdBy && accounts[a].organizationId == d.organizationId
  }

  /** U6, second update: `choice` is the matching account the database uses. */
  function AssignAccount(accounts: map<Id, Account>, d: Document, choice: Id): Document {
    if Matching(accounts, d) == {} then d else d.(accountId := choice)
  }

  function UpdatedDocument(t: Tables, orgId: map<Id, Id>, d: Document, choice: Id): Document {
    AssignAccount(MergeAccounts(t, orgId), AssignOrganization(t, orgId, d), choice)
  }

  function UpdateDocuments(t: Tables, orgId: map<Id, Id>, choice: map<Id, Id>): map<Id, Document>
    requires t.documents.Keys <= choice.Keys
  {
    map d | d in t.documents :: UpdatedDocument(t, orgId, t.documents[d], choice[d])
  }

  ghost predicate LegalChoice(t: Tables, orgId: map<Id, Id>, choice: map<Id, Id>) {
    && t.documents.Keys <= choice.Keys
    && forall d :: d in t.documents ==>
         var matching := Matching(MergeAccounts(t, orgId), AssignOrganization(t, orgId, t.documents[d]));
         matching != {} ==> choice[d] in matching
  }

  /** The foreign keys that `up` adds. */
  predicate UpKeysHold(t: Tables)
    requires t.organizations.Some? && t.accounts.Some?
  {
    && (forall r :: r in t.roleOrganizations && t.roleOrganizations[r].Some? ==>
          t.roleOrganizations[r].value in t.organizations.value)
    && (forall d :: d in t.documents ==> t.documents[d].accountId in t.accounts.value)
    && (forall d :: d in t.documents && t.documents[d].organizationId.Some? ==>
          t.documents[d].organizationId.value in t.organizations.value)
    && t.subscribed <= t.accounts.value.Keys
  }

  /** What the statements of `up` make of `t`. */
  ghost predicate IsUp(t: Tables, orgId: map<Id, Id>, choice: map<Id, Id>, after: Tables)
    requires t.details.Some? && GeneratesIds(t.details.value, orgId) && t.documents.Keys <= choice.Keys
  {
    && after.organizations.Some? && IsInsertion(t.details.value, orgId, after.organizations.value)
    && after == t.(documents := UpdateDocuments(t, orgId, choice), details := None,
                   organizations := after.organizations, accounts := Some(MergeAccounts(t, orgId)))
  }

  // ------------------------------------------------------------------------------------------
  // The statements of down.
  // ------------------------------------------------------------------------------------------

  /** D8: organization_details, keyed by the tenant, is filled back from organizations. */
  ghost predicate IsReadBack(organizations: map<Id, Organization>, details: map<Id, Details>) {
    && (forall o :: o in organizations && organizations[o].legacyAccountId.Some? ==>
          && organizations[o].legacyAccountId.value in details
          && details[organizations[o].legacyAccountId.value] == organizations[o].details)
    && (forall a :: a in details ==> IsLegacyId(organizations, a))
  }

  predicate IsLegacyId(organizations: map<Id, Organization>, tenant: Id) {
    exists o :: o in organizations && organizations[o].legacyAccountId == Some(tenant)
  }

  /** The subquery of D6: the personal tenants of which a user is a member. */
  function PersonalTenants(t: Tables, user: Id): set<Id> {
    set m | m in t.members && t.members[m].userId == user
            && t.members[m].accountId in t.tenants && t.tenants[t.members[m].accountId].kind == PERSONAL
          :: t.members[m].accountId
  }

  /** `personal` is what LIMIT 1 returns for each user. */
  ghost predicate LegalPersonal(t: Tables, personal: map<Id, Id>) {
    forall user :: PersonalTenants(t, user) != {} ==> user in personal && personal[user] in PersonalTenants(t, user)
  }

  /** D6: COALESCE(legacy tenant of the organization, personal tenant of the creator); NULL is a violation. */
  function RestoredAccount(t: Tables, organizations: map<Id, Organization>, personal: map<Id, Id>, d: Document): Option<Id> {
    if d.organizationId.Some? && d.organizationId.value in organizations
       && organizations[d.organizationId.value].legacyAccountId.Some?
    then organizations[d.organizationId.value].legacyAccountId
    else if PersonalTenants(t, d.createdBy) != {} && d.createdBy in personal then Some(personal[d.createdBy])
    else None
  }

  /** organization_details has the tenant as its primary key and as a foreign key. */
  predicate DetailsKeysHold(t: Tables, organizations: map<Id, Organization>) {
    && LegacyIdsAreUnique(organizations)
    && forall o :: o in organizations && organizations[o].legacyAccountId.Some? ==>
         organizations[o].legacyAccountId.value in t.tenants
  }

  predicate LegacyIdsAreUnique(organizations: map<Id, Organization>) {
    forall o, p :: o in organizations && p in organizations && organizations[o].legacyAccountId.Some? && o != p ==>
      organizations[o].legacyAccountId != organizations[p].legacyAccountId
  }

  /** D6 leaves no document without tenant; the other foreign keys point back to the tenants. */
  predicate DownKeysHold(t: Tables, personal: map<Id, Id>)
    requires t.organizations.Some?
  {
    && DetailsKeysHold(t, t.organizations.value)
    && (forall d :: d in t.documents ==> IsTenant(t, RestoredAccount(t, t.organizations.value, personal, t.documents[d])))
    && (forall r :: r in t.roleOrganizations ==> t.roleOrganizations[r].None? || IsTenant(t, t.roleOrganizations[r]))
    && t.subscribed <= t.tenants.Keys
  }

  predicate IsTenant(t: Tables, a: Option<Id>) {
    a.Some? && a.value in t.tenants
  }

  function RestoredDocument(d: Document, account: Option<Id>): Document {
    Document(d.createdBy, if account.Some? then account.value else d.accountId, None)
  }

  function RestoreDocuments(t: Tables, organizations: map<Id, Organization>, personal: map<Id, Id>): map<Id, Document> {
    map d | d in t.documents ::
      RestoredDocument(t.documents[d], RestoredAccount(t, organizations, personal, t.documents[d]))
  }

  /** What the statements of `down` make of `t`. */
  ghost predicate IsDown(t: Tables, personal: map<Id, Id>, after: Tables)
    requires t.organizations.Some?
  {
    && after.details.Some? && IsReadBack(t.organizations.value, after.details.value)
    && after == t.(documents := RestoreDocuments(t, t.organizations.value, personal), details := after.details,
                   organizations := None, accounts := None)
  }

  // ------------------------------------------------------------------------------------------
  // The state before the migration.
  // ------------------------------------------------------------------------------------------

  /** What the schema enforces before the migration, and organization_id still unused. */
  ghost predicate OldSchema(t: Tables) {
    && t.details.Some? && t.organizations.None? && t.accounts.None?
    && t.details.value.Keys <= t.tenants.Keys
    && (forall m :: m in t.members ==> t.members[m].accountId in t.tenants && t.members[m].userId in t.users)
    && (forall m, n :: m in t.members && n in t.members && m != n ==>
          t.members[m].accountId != t.members[n].accountId || t.members[m].userId != t.members[n].userId)
    && (forall d :: d in t.documents ==> t.documents[d].accountId in t.tenants)
    && (forall d :: d in t.documents ==> t.documents[d].organizationId.None?)
    && (forall r :: r in t.roleOrganizations && t.roleOrganizations[r].Some? ==> t.roleOrganizations[r].value in t.tenants)
    && t.subscribed <= t.tenants.Keys
  }

  ghost predicate HasMembership(t: Tables, tenant: Id, user: Id) {
    exists m :: m in t.members && t.members[m].accountId == tenant && t.members[m].userId == user
  }

  /** The conventions of the application that the schema does not enforce. */
  ghost predicate WellFormed(t: Tables) {
    && OldSchema(t)
    && (forall a :: a in t.tenants ==> (a in t.details.value <==> t.tenants[a].kind == ORGANIZATION))
    && (forall d :: d in t.documents ==> HasMembership(t, t.documents[d].accountId, t.documents[d].createdBy))
    && OnePersonalTenantEach(t)
    // U5 and U7: only system roles, and no subscriptions yet.
    && (forall r :: r in t.roleOrganizations ==> t.roleOrganizations[r].None?)
    && t.subscribed == {}
  }

  ghost predicate OnePersonalTenantEach(t: Tables) {
    forall user, a, b :: a in PersonalTenants(t, user) && b in PersonalTenants(t, user) ==> a == b
  }

  // ------------------------------------------------------------------------------------------
  // After up, row by row.
  // ------------------------------------------------------------------------------------------

  /** The organization that took over `tenant`, if one did; `None` means that there is none. */
  ghost predicate TookOver(organizations: map<Id, Organization>, o: Option<Id>, tenant: Id) {
    match o
    case Some(id) => id in organizations && organizations[id].legacyAccountId == Some(tenant)
    case None => !IsLegacyId(organizations, tenant)
  }

  /** Column by column: the merged account of a membership. */
  ghost predicate IsMerged(account: Account, member: Member, tenant: Tenant, user: User,
                           organizations: map<Id, Organization>) {
    && account.userId == member.userId
    && account.email == user.email && account.password == user.password
    && account.kind == tenant.kind && account.createdAt == tenant.createdAt && account.joinedAt == tenant.createdAt
    && account.roleId == member.roleId && account.position == member.position
    && account.isActive == member.isActive
    && (account.status == Active <==> member.isActive) && (account.status == Removed <==> !member.isActive)
    && TookOver(organizations, account.organizationId, member.accountId)
  }

  /** One account per membership, under its id, with its user's credentials. */
  ghost predicate AccountsAreMerged(t: Tables, after: Tables) {
    && after.accounts.Some? && after.organizations.Some?
    && after.accounts.value.Keys == t.members.Keys
    && forall m :: m in t.members ==>
         && t.members[m].accountId in t.tenants && t.members[m].userId in t.users
         && IsMerged(after.accounts.value[m], t.members[m], t.tenants[t.members[m].accountId],
                     t.users[t.members[m].userId], after.organizations.value)
  }

  lemma OrganizationTookOver(details: map<Id, Details>, orgId: map<Id, Id>, organizations: map<Id, Organization>, tenant: Id)
    requires GeneratesIds(details, orgId) && IsInsertion(details, orgId, organizations)
    ensures TookOver(organizations, OrganizationIdOf(orgId, tenant), tenant)
  {
  }

  lemma MembershipsBecomeAccounts(t: Tables, orgId: map<Id, Id>, choice: map<Id, Id>, after: Tables)
    requires OldSchema(t) && GeneratesIds(t.details.value, orgId) && t.documents.Keys <= choice.Keys
    requires IsUp(t, orgId, choice, after)
    ensures AccountsAreMerged(t, after)
  {
    forall m | m in t.members
      ensures m in after.accounts.value
      ensures IsMerged(after.accounts.value[m], t.members[m], t.tenants[t.members[m].accountId],
                       t.users[t.members[m].userId], after.organizations.value)
    {
      OrganizationTookOver(t.details.value, orgId, after.organizations.value, t.members[m].accountId);
    }
  }

  /** A document of an organization tenant with details follows it; any other stays outside the organizations. */
  predicate FollowsTenant(t: Tables, tenant: Id)
    requires t.details.Some?
  {
    tenant in t.tenants && t.tenants[tenant].kind == ORGANIZATION && tenant in t.details.value
  }

  /** A membership of the document's creator in the document's tenant, or, outside organizations, in any such tenant. */
  predicate IsCreatorsMembership(t: Tables, doc: Document, m: Id)
    requires t.details.Some?
  {
    && m in t.members && t.members[m].userId == doc.createdBy
    && if FollowsTenant(t, doc.accountId) then t.members[m].accountId == doc.accountId
       else t.members[m].accountId !in t.details.value
  }

  predicate HasCreatorsMembership(t: Tables, doc: Document)
    requires t.details.Some?
  {
    exists m :: m in t.members && IsCreatorsMembership(t, doc, m)
  }

  /** Where a document ends up, on any state that the old schema allows. */
  lemma DocumentAfterUp(t: Tables, orgId: map<Id, Id>, choice: map<Id, Id>, after: Tables, d: Id)
    requires OldSchema(t) && GeneratesIds(t.details.value, orgId) && LegalChoice(t, orgId, choice)
    requires IsUp(t, orgId, choice, after) && d in t.documents
    ensures d in after.documents
    ensures var doc, moved := t.documents[d], after.documents[d];
            && moved.createdBy == doc.createdBy
            && (moved.organizationId.Some? <==> FollowsTenant(t, doc.accountId))
            && (moved.organizationId.Some? ==> TookOver(after.organizations.value, moved.organizationId, doc.accountId))
            && (if HasCreatorsMembership(t, doc) then IsCreatorsMembership(t, doc, moved.accountId)
                else moved.accountId == doc.accountId)
  {
    var doc := t.documents[d];
    var placed := AssignOrganization(t, orgId, doc);
    OrganizationTookOver(t.details.value, orgId, after.organizations.value, doc.accountId);
    forall m ensures m in Matching(MergeAccounts(t, orgId), placed) <==> IsCreatorsMembership(t, doc, m) {
      MatchingIsCreators(t, orgId, doc, m);
    }
    if m :| m in t.members && IsCreatorsMembership(t, doc, m) {
      assert m in Matching(MergeAccounts(t, orgId), placed);
    }
  }

  lemma MatchingIsCreators(t: Tables, orgId: map<Id, Id>, doc: Document, m: Id)
    requires OldSchema(t) && GeneratesIds(t.details.value, orgId) && doc.organizationId.None?
    ensures m in Matching(MergeAccounts(t, orgId), AssignOrganization(t, orgId, doc)) <==> IsCreatorsMembership(t, doc, m)
  {
  }

  /** The states on which the keys of `up` hold, read off the old tables and the new organizations. */
  ghost predicate CanBeMerged(t: Tables, organizations: map<Id, Organization>)
    requires t.details.Some?
  {
    && (forall d :: d in t.documents ==>
          HasCreatorsMembership(t, t.documents[d]) || t.documents[d].accountId in t.members)
    && (forall r :: r in t.roleOrganizations && t.roleOrganizations[r].Some? ==>
          t.roleOrganizations[r].value in organizations)
    && t.subscribed <= t.members.Keys
  }

  /** The two foreign keys of a document, after `up` and before it. */
  ghost predicate KeysOfDocument(t: Tables, after: Tables, d: Id)
    requires t.details.Some? && d in t.documents && d in after.documents && after.organizations.Some?
  {
    && (after.documents[d].accountId in t.members
        <==> HasCreatorsMembership(t, t.documents[d]) || t.documents[d].accountId in t.members)
    && (after.documents[d].organizationId.Some? ==> after.documents[d].organizationId.value in after.organizations.value)
  }

  lemma KeysHoldIff(t: Tables, after: Tables)
    requires t.details.Some? && after.organizations.Some? && after.accounts.Some?
    requires after.documents.Keys == t.documents.Keys && after.accounts.value.Keys == t.members.Keys
    requires after.roleOrganizations == t.roleOrganizations && after.subscribed == t.subscribed
    requires forall d :: d in t.documents ==> KeysOfDocument(t, after, d)
    ensures UpKeysHold(after) <==> CanBeMerged(t, after.organizations.value)
  {
    forall d | d in t.documents
      ensures after.documents[d].accountId in after.accounts.value
         <==> HasCreatorsMembership(t, t.documents[d]) || t.documents[d].accountId in t.members
      ensures after.documents[d].organizationId.Some? ==> after.documents[d].organizationId.value in after.organizations.value
    {
      assert KeysOfDocument(t, after, d);
    }
  }

  /**
    Exactly when `up` violates no foreign key, on any state that the old schema allows: every
    document has an account of its creator to go to (or a tenant id that is also a membership's),
    roles point only at ids of organizations, and subscriptions only at ids of memberships.
   */
  lemma UpSucceedsIff(t: Tables, orgId: map<Id, Id>, choice: map<Id, Id>, after: Tables)
    requires OldSchema(t) && GeneratesIds(t.details.value, orgId) && LegalChoice(t, orgId, choice)
    requires IsUp(t, orgId, choice, after)
    ensures UpKeysHold(after) <==> CanBeMerged(t, after.organizations.value)
  {
    MembershipsBecomeAccounts(t, orgId, choice, after);
    forall d | d in t.documents ensures d in after.documents && KeysOfDocument(t, after, d) {
      DocumentAfterUp(t, orgId, choice, after, d);
    }
    KeysHoldIff(t, after);
  }

  // ------------------------------------------------------------------------------------------
  // Between up and down.
  // ------------------------------------------------------------------------------------------

  /** The creator's membership in the document's tenant is the only account a document can be moved to. */
  lemma CreatorsAccountMatches(t: Tables, orgId: map<Id, Id>, d: Id, m: Id)
    requires WellFormed(t) && GeneratesIds(t.details.value, orgId) && d in t.documents
    requires m in t.members && t.members[m].accountId == t.documents[d].accountId
    requires t.members[m].userId == t.documents[d].createdBy
    ensures Matching(MergeAccounts(t, orgId), AssignOrganization(t, orgId, t.documents[d])) == {m}
  {
    var accounts, doc := MergeAccounts(t, orgId), t.documents[d];
    var placed := AssignOrganization(t, orgId, doc);
    assert placed.organizationId == OrganizationIdOf(orgId, doc.accountId);
    forall a ensures a in Matching(accounts, placed) <==> a == m {
      if a in Matching(accounts, placed) {
        SameContextSameTenant(t, orgId, t.members[a].accountId, t.members[m].accountId, doc.createdBy, a, m);
      }
    }
  }

  /** Two memberships of one user with the same organization id are memberships in the same tenant. */
  lemma SameContextSameTenant(t: Tables, orgId: map<Id, Id>, a: Id, b: Id, user: Id, m: Id, n: Id)
    requires WellFormed(t) && GeneratesIds(t.details.value, orgId)
    requires m in t.members && t.members[m].accountId == a && t.members[m].userId == user
    requires n in t.members && t.members[n].accountId == b && t.members[n].userId == user
    requires OrganizationIdOf(orgId, a) == OrganizationIdOf(orgId, b)
    ensures a == b
  {
    if a !in orgId {
      assert a in PersonalTenants(t, user) && b in PersonalTenants(t, user);
    }
  }

  /**
    After `up`, every document belongs to an account of its creator, in the organization that took
    over the tenant the document had (or in none, for a personal tenant).
   */
  lemma DocumentsFollowTheirCreators(t: Tables, orgId: map<Id, Id>, choice: map<Id, Id>, after: Tables, d: Id)
    requires WellFormed(t) && GeneratesIds(t.details.value, orgId) && LegalChoice(t, orgId, choice)
    requires IsUp(t, orgId, choice, after) && d in t.documents
    ensures d in after.documents && after.accounts.Some?
    ensures var doc := after.documents[d];
            && doc.accountId in after.accounts.value
            && after.accounts.value[doc.accountId].userId == doc.createdBy == t.documents[d].createdBy
            && after.accounts.value[doc.accountId].organizationId == doc.organizationId
            && doc.organizationId == OrganizationIdOf(orgId, t.documents[d].accountId)
            && doc.accountId in t.members && t.members[doc.accountId].accountId == t.documents[d].accountId
  {
    var m :| m in t.members && t.members[m].accountId == t.documents[d].accountId
             && t.members[m].userId == t.documents[d].createdBy;
    CreatorsAccountMatches(t, orgId, d, m);
    assert choice[d] == m;
  }

  /** On a well-formed state `up` violates no foreign key. */
  lemma UpSucceeds(t: Tables, orgId: map<Id, Id>, choice: map<Id, Id>, after: Tables)
    requires WellFormed(t) && GeneratesIds(t.details.value, orgId) && LegalChoice(t, orgId, choice)
    requires IsUp(t, orgId, choice, after)
    ensures UpKeysHold(after)
  {
    forall d | d in after.documents
      ensures after.documents[d].accountId in after.accounts.value
      ensures after.documents[d].organizationId.Some? ==> after.documents[d].organizationId.value in after.organizations.value
    {
      DocumentsFollowTheirCreators(t, orgId, choice, after, d);
    }
  }

  // ------------------------------------------------------------------------------------------
  // down after up.
  // ------------------------------------------------------------------------------------------

  /** organization_details is rebuilt row by row. */
  lemma DetailsSurvive(details: map<Id, Details>, orgId: map<Id, Id>, organizations: map<Id, Organization>,
                       restored: map<Id, Details>)
    requires GeneratesIds(details, orgId) && IsInsertion(details, orgId, organizations)
    requires IsReadBack(organizations, restored)
    ensures restored == details
  {
    forall a | a in details ensures a in restored && restored[a] == details[a] {
      assert organizations[orgId[a]].legacyAccountId == Some(a);
    }
    forall a | a in restored ensures a in details {
      assert IsLegacyId(organizations, a);
    }
    assert restored.Keys == details.Keys;
  }

  /** The two cases in which `down` finds the tenant a document had. */
  predicate IsRecoverable(t: Tables, personal: map<Id, Id>, d: Document)
    requires t.details.Some?
  {
    (d.accountId in t.details.value && d.accountId in t.tenants && t.tenants[d.accountId].kind == ORGANIZATION)
    || (PersonalTenants(t, d.createdBy) != {} && d.createdBy in personal && personal[d.createdBy] == d.accountId)
  }

  /**
    Exactly which documents get their tenant back, on any state the old schema allows: those of
    an organization tenant with details, and those of the personal tenant LIMIT 1 picks for the creator.
   */
  lemma DocumentIsRestoredIff(t: Tables, orgId: map<Id, Id>, choice: map<Id, Id>, after: Tables,
                              personal: map<Id, Id>, d: Id)
    requires OldSchema(t) && GeneratesIds(t.details.value, orgId) && t.documents.Keys <= choice.Keys
    requires IsUp(t, orgId, choice, after) && d in t.documents
    ensures d in after.documents
    ensures RestoredAccount(after, after.organizations.value, personal, after.documents[d]) == Some(t.documents[d].accountId)
       <==> IsRecoverable(t, personal, t.documents[d])
  {
    var doc := t.documents[d];
    UpKeepsContext(t, orgId, doc, choice[d]);
    FoundIffRecoverable(t, orgId, after.organizations.value, personal, doc, after.documents[d]);
    SameTenantsSameAccount(t, after, after.organizations.value, personal, after.documents[d]);
  }

  lemma SameTenantsSameAccount(t: Tables, after: Tables, organizations: map<Id, Organization>, personal: map<Id, Id>,
                               doc: Document)
    requires after.members == t.members && after.tenants == t.tenants
    ensures RestoredAccount(after, organizations, personal, doc) == RestoredAccount(t, organizations, personal, doc)
  {
    assert PersonalTenants(after, doc.createdBy) == PersonalTenants(t, doc.createdBy);
  }

  lemma UpKeepsContext(t: Tables, orgId: map<Id, Id>, doc: Document, choice: Id)
    ensures var moved := UpdatedDocument(t, orgId, doc, choice);
            moved.createdBy == doc.createdBy && moved.organizationId == AssignOrganization(t, orgId, doc).organizationId
  {
  }

  /** Where `down` sends `moved`, which `up` made of `doc`: to the tenant of `doc`, or astray. */
  lemma FoundIffRecoverable(t: Tables, orgId: map<Id, Id>, organizations: map<Id, Organization>, personal: map<Id, Id>,
                            doc: Document, moved: Document)
    requires t.details.Some? && GeneratesIds(t.details.value, orgId) && doc.organizationId.None?
    requires IsInsertion(t.details.value, orgId, organizations)
    requires moved.createdBy == doc.createdBy
    requires moved.organizationId == AssignOrganization(t, orgId, doc).organizationId
    ensures RestoredAccount(t, organizations, personal, moved) == Some(doc.accountId) <==> IsRecoverable(t, personal, doc)
  {
    if moved.organizationId.Some? {
      assert organizations[orgId[doc.accountId]].legacyAccountId == Some(doc.accountId);
    }
  }

  /** On a well-formed state every document is in one of the two cases. */
  lemma WellFormedIsRecoverable(t: Tables, personal: map<Id, Id>, d: Id)
    requires WellFormed(t) && LegalPersonal(t, personal) && d in t.documents
    ensures IsRecoverable(t, personal, t.documents[d])
  {
    var doc := t.documents[d];
    if t.tenants[doc.accountId].kind == PERSONAL {
      var m :| m in t.members && t.members[m].accountId == doc.accountId && t.members[m].userId == doc.createdBy;
      assert doc.accountId in PersonalTenants(t, doc.createdBy);
    }
  }

  /** Document `d` of `t` is found again from `after`. */
  predicate Survives(t: Tables, after: Tables, personal: map<Id, Id>, d: Id)
    requires after.organizations.Some? && d in t.documents
  {
    && d in after.documents
    && IsTenant(after, RestoredAccount(after, after.organizations.value, personal, after.documents[d]))
    && t.documents[d] == RestoredDocument(after.documents[d],
                                          RestoredAccount(after, after.organizations.value, personal, after.documents[d]))
  }

  lemma DocumentSurvives(t: Tables, orgId: map<Id, Id>, choice: map<Id, Id>, after: Tables, personal: map<Id, Id>, d: Id)
    requires WellFormed(t) && GeneratesIds(t.details.value, orgId) && LegalChoice(t, orgId, choice)
    requires IsUp(t, orgId, choice, after) && LegalPersonal(t, personal) && d in t.documents
    ensures Survives(t, after, personal, d)
  {
    WellFormedIsRecoverable(t, personal, d);
    DocumentIsRestoredIff(t, orgId, choice, after, personal, d);
    UpKeepsContext(t, orgId, t.documents[d], choice[d]);
    SurvivesIfRestored(t, after, personal, d);
  }

  lemma SurvivesIfRestored(t: Tables, after: Tables, personal: map<Id, Id>, d: Id)
    requires OldSchema(t) && after.organizations.Some? && after.tenants == t.tenants
    requires d in t.documents && d in after.documents && after.documents[d].createdBy == t.documents[d].createdBy
    requires RestoredAccount(after, after.organizations.value, personal, after.documents[d]) == Some(t.documents[d].accountId)
    ensures Survives(t, after, personal, d)
  {
  }

  lemma RestoredDocuments(t: Tables, after: Tables, personal: map<Id, Id>)
    requires after.organizations.Some? && after.documents.Keys == t.documents.Keys
    requires forall d :: d in t.documents ==> Survives(t, after, personal, d)
    ensures RestoreDocuments(after, after.organizations.value, personal) == t.documents
  {
    var restored := RestoreDocuments(after, after.organizations.value, personal);
    assert restored.Keys == t.documents.Keys;
    forall d | d in t.documents ensures restored[d] == t.documents[d] {
      assert Survives(t, after, personal, d);
    }
  }

  /** `down` right after `up` violates no key and rebuilds every table, row by row, whatever the database chose. */
  lemma DownUndoesUp(t: Tables, orgId: map<Id, Id>, choice: map<Id, Id>, after: Tables,
                     personal: map<Id, Id>, restored: Tables)
    requires WellFormed(t) && GeneratesIds(t.details.value, orgId) && LegalChoice(t, orgId, choice)
    requires IsUp(t, orgId, choice, after) && LegalPersonal(t, personal)
    ensures DownKeysHold(after, personal)
    ensures IsDown(after, personal, restored) ==> restored == t
  {
    DocumentsSurvive(t, orgId, choice, after, personal);
    RestoredDocuments(t, after, personal);
    InsertedKeysHold(t, orgId, after.organizations.value);
    KeysHoldAgain(t, after, personal);
    if IsDown(after, personal, restored) {
      DetailsSurvive(t.details.value, orgId, after.organizations.value, restored.details.value);
    }
  }

  lemma DocumentsSurvive(t: Tables, orgId: map<Id, Id>, choice: map<Id, Id>, after: Tables, personal: map<Id, Id>)
    requires WellFormed(t) && GeneratesIds(t.details.value, orgId) && LegalChoice(t, orgId, choice)
    requires IsUp(t, orgId, choice, after) && LegalPersonal(t, personal)
    ensures after.documents.Keys == t.documents.Keys
    ensures forall d :: d in t.documents ==> Survives(t, after, personal, d)
  {
    forall d | d in t.documents ensures Survives(t, after, personal, d) {
      DocumentSurvives(t, orgId, choice, after, personal, d);
    }
  }

  lemma InsertedKeysHold(t: Tables, orgId: map<Id, Id>, organizations: map<Id, Organization>)
    requires t.details.Some? && t.details.value.Keys <= t.tenants.Keys && GeneratesIds(t.details.value, orgId)
    requires IsInsertion(t.details.value, orgId, organizations)
    ensures DetailsKeysHold(t, organizations)
  {
  }

  lemma KeysHoldAgain(t: Tables, after: Tables, personal: map<Id, Id>)
    requires after.organizations.Some? && after.documents.Keys == t.documents.Keys
    requires forall d :: d in t.documents ==> Survives(t, after, personal, d)
    requires forall r :: r in after.roleOrganizations ==> after.roleOrganizations[r].None?
    requires after.subscribed == {} && DetailsKeysHold(after, after.organizations.value)
    ensures DownKeysHold(after, personal)
  {
    forall d | d in after.documents
      ensures IsTenant(after, RestoredAccount(after, after.organizations.value, personal, after.documents[d]))
    {
      assert Survives(t, after, personal, d);
    }
  }

  /** User 2 created document 7 in tenant 1, the personal tenant of user 1. */
  function GuestState(): Tables {
    Tables(map[1 := User("host", ""), 2 := User("guest", "")],
           map[1 := Tenant(PERSONAL, 0), 2 := Tenant(PERSONAL, 0)],
           map[11 := Member(1, 1, None, true, None), 12 := Member(2, 2, None, true, None)],
           map[], {}, map[7 := Document(2, 1, None)], Some(map[]), None, None)
  }

  lemma GuestPersonalTenants(t: Tables)
    requires t.members == GuestState().members && t.tenants == GuestState().tenants
    ensures forall user :: PersonalTenants(t, user) == if user == 1 then {1} else if user == 2 then {2} else {}
  {
    assert t.members[11].userId == 1 && t.members[12].userId == 2;
    assert 1 in PersonalTenants(t, 1) && 2 in PersonalTenants(t, 2);
  }

  lemma GuestMatches()
    ensures Matching(MergeAccounts(GuestState(), map[]), GuestState().documents[7]) == {12}
  {
    var accounts := MergeAccounts(GuestState(), map[]);
    assert accounts[11].userId == 1 && accounts[12].userId == 2;
  }

  /**
    Outside the conventions it can go wrong in silence: a document that a user created in a
    personal tenant that is not theirs passes every key and comes back to another tenant.
   */
  lemma GuestDocumentMoves() returns (after: Tables, choice: map<Id, Id>, personal: map<Id, Id>)
    ensures OldSchema(GuestState()) && LegalChoice(GuestState(), map[], choice) && LegalPersonal(GuestState(), personal)
    ensures IsUp(GuestState(), map[], choice, after) && UpKeysHold(after) && DownKeysHold(after, personal)
    ensures 7 in after.documents && GuestState().documents[7].accountId == 1
    ensures RestoredAccount(after, after.organizations.value, personal, after.documents[7]) == Some(2)
  {
    choice, personal := map[7 := 12], map[1 := 1, 2 := 2];
    GuestIsLegal(choice, personal);
    after := GuestAfterUp(choice);
    GuestComesBackTo(after, personal);
  }

  lemma GuestIsLegal(choice: map<Id, Id>, personal: map<Id, Id>)
    requires choice == map[7 := 12] && personal == map[1 := 1, 2 := 2]
    ensures OldSchema(GuestState()) && LegalChoice(GuestState(), map[], choice) && LegalPersonal(GuestState(), personal)
  {
    GuestMatches();
    GuestPersonalTenants(GuestState());
    assert AssignOrganization(GuestState(), map[], GuestState().documents[7]) == GuestState().documents[7];
  }

  lemma GuestComesBackTo(after: Tables, personal: map<Id, Id>)
    requires after.organizations == Some(map[]) && personal == map[1 := 1, 2 := 2]
    requires after.members == GuestState().members && after.tenants == GuestState().tenants
    requires after.documents == map[7 := Document(2, 12, None)]
    requires after.roleOrganizations == map[] && after.subscribed == {}
    ensures RestoredAccount(after, after.organizations.value, personal, after.documents[7]) == Some(2)
    ensures DownKeysHold(after, personal)
  {
    GuestPersonalTenants(after);
  }

  lemma GuestAfterUp(choice: map<Id, Id>) returns (after: Tables)
    requires choice == map[7 := 12]
    ensures IsUp(GuestState(), map[], choice, after) && UpKeysHold(after)
    ensures after.members == GuestState().members && after.tenants == GuestState().tenants
    ensures after.documents == map[7 := Document(2, 12, None)]
    ensures after.roleOrganizations == map[] && after.subscribed == {} && after.organizations == Some(map[])
  {
    var t := GuestState();
    GuestMatches();
    after := t.(documents := UpdateDocuments(t, map[], choice), details := None, organizations := Some(map[]),
                accounts := Some(MergeAccounts(t, map[])));
    assert t.documents[7] == AssignOrganization(t, map[], t.documents[7]);
    assert after.documents[7] == Document(2, 12, None);
    assert 12 in t.members && t.members[12].userId == 2;
  }

  // ------------------------------------------------------------------------------------------
  // The migration as it runs.
  // ------------------------------------------------------------------------------------------

  class MergeAccountAndOrganization {
    var users: map<Id, User>
    var tenants: map<Id, Tenant>
    var members: map<Id, Member>
    var roleOrganizations: map<Id, Option<Id>>
    var subscribed: set<Id>
    var documents: map<Id, Document>
    var details: Option<map<Id, Details>>
    var organizations: Option<map<Id, Organization>>
    var accounts: Option<map<Id, Account>>

    constructor (t: Tables)
      ensures Snapshot() == t
    {
      users, tenants, members := t.users, t.tenants, t.members;
      roleOrganizations, subscribed, documents := t.roleOrganizations, t.subscribed, t.documents;
      details, organizations, accounts := t.details, t.organizations, t.accounts;
    }

    function Snapshot(): Tables
      reads this
    {
      Tables(users, tenants, members, roleOrganizations, subscribed, documents, details, organizations, accounts)
    }

    method RollBack(t: Tables)
      modifies this
      ensures Snapshot() == t
    {
      users, tenants, members := t.users, t.tenants, t.members;
      roleOrganizations, subscribed, documents := t.roleOrganizations, t.subscribed, t.documents;
      details, organizations, accounts := t.details, t.organizations, t.accounts;
    }

    /** The statements that change rows, in order. */
    method RunUp(orgId: map<Id, Id>, choice: map<Id, Id>)
      requires details.Some? && GeneratesIds(details.value, orgId) && documents.Keys <= choice.Keys
      modifies this
      ensures IsUp(old(Snapshot()), orgId, choice, Snapshot())
      ensures old(OldSchema(Snapshot())) ==> AccountsAreMerged(old(Snapshot()), Snapshot())
    {
      var before := Snapshot();
      // U1
      var created := CreateOrganizations(details.value, orgId);
      organizations := Some(created);
      // U3
      accounts := Some(MergeAccounts(before, orgId));
      // U6
      documents := MoveDocuments(before, orgId, choice);
      // U8
      details := None;
      assert Snapshot() == before.(documents := documents, details := None, organizations := Some(created),
                                   accounts := accounts);
      if OldSchema(before) {
        MembershipsBecomeAccounts(before, orgId, choice, Snapshot());
      }
    }

    /** The keys are checked as they are added; a violation aborts the migration's transaction. */
    method Up(orgId: map<Id, Id>, choice: map<Id, Id>) returns (done: bool, ghost attempted: Tables)
      requires details.Some? && GeneratesIds(details.value, orgId) && documents.Keys <= choice.Keys
      modifies this
      ensures IsUp(old(Snapshot()), orgId, choice, attempted)
      ensures done <==> UpKeysHold(attempted)
      ensures Snapshot() == if done then attempted else old(Snapshot())
      ensures old(OldSchema(Snapshot())) && done ==> AccountsAreMerged(old(Snapshot()), Snapshot())
      ensures old(OldSchema(Snapshot())) && LegalChoice(old(Snapshot()), orgId, choice) ==>
        (done <==> CanBeMerged(old(Snapshot()), attempted.organizations.value))
    {
      var saved := Snapshot();
      RunUp(orgId, choice);
      attempted := Snapshot();
      if OldSchema(saved) && LegalChoice(saved, orgId, choice) {
        UpSucceedsIff(saved, orgId, choice, attempted);
      }
      done := UpKeysHold(Snapshot());
      if !done {
        RollBack(saved);
      }
    }

    method Down(personal: map<Id, Id>) returns (done: bool)
      requires organizations.Some?
      modifies this
      ensures done ==> IsDown(old(Snapshot()), personal, Snapshot())
      ensures done <==> DownKeysHold(old(Snapshot()), personal)
      ensures !done ==> Snapshot() == old(Snapshot())
    {
      var saved := Snapshot();
      // D8
      if !DetailsKeysHold(saved, organizations.value) {
        return false;
      }
      var rebuilt := RebuildDetails(organizations.value);
      details := Some(rebuilt);
      // D6
      documents := RestoreDocuments(saved, organizations.value, personal);
      // D3, D1
      accounts := None;
      organizations := None;
      if !DownKeysHold(saved, personal) {
        RollBack(saved);
        return false;
      }
      return true;
    }
  }

  method CreateOrganizations(details: map<Id, Details>, orgId: map<Id, Id>) returns (organizations: map<Id, Organization>)
    requires GeneratesIds(details, orgId)
    ensures IsInsertion(details, orgId, organizations)
  {
    organizations := map tenant | tenant in details :: orgId[tenant] := Organization(details[tenant], Some(tenant));
  }

  /** The two updates of U6, one after the other. */
  method MoveDocuments(t: Tables, orgId: map<Id, Id>, choice: map<Id, Id>) returns (documents: map<Id, Document>)
    requires t.documents.Keys <= choice.Keys
    ensures documents == UpdateDocuments(t, orgId, choice)
  {
    var moved := ToOrganizations(t, orgId);
    documents := MoveToAccounts(moved, MergeAccounts(t, orgId), choice);
    TwoUpdates(t, orgId, MergeAccounts(t, orgId), choice);
  }

  function ToOrganizations(t: Tables, orgId: map<Id, Id>): map<Id, Document> {
    map d | d in t.documents :: AssignOrganization(t, orgId, t.documents[d])
  }

  function MoveToAccounts(documents: map<Id, Document>, accounts: map<Id, Account>, choice: map<Id, Id>): map<Id, Document>
    requires documents.Keys <= choice.Keys
  {
    map d | d in documents :: AssignAccount(accounts, documents[d], choice[d])
  }

  lemma TwoUpdates(t: Tables, orgId: map<Id, Id>, accounts: map<Id, Account>, choice: map<Id, Id>)
    requires t.documents.Keys <= choice.Keys && accounts == MergeAccounts(t, orgId)
    ensures MoveToAccounts(ToOrganizations(t, orgId), accounts, choice) == UpdateDocuments(t, orgId, choice)
  {
    var moved := ToOrganizations(t, orgId);
    SameMaps(MoveToAccounts(moved, accounts, choice), UpdateDocuments(t, orgId, choice));
  }

  lemma SameMaps(a: map<Id, Document>, b: map<Id, Document>)
    requires a.Keys == b.Keys && forall d :: d in a ==> a[d] == b[d]
    ensures a == b
  {
  }

  method RebuildDetails(organizations: map<Id, Organization>) returns (details: map<Id, Details>)
    requires LegacyIdsAreUnique(organizations)
    ensures IsReadBack(organizations, details)
  {
    details := map o | o in organizations && organizations[o].legacyAccountId.Some? ::
      organizations[o].legacyAccountId.value := organizations[o].details;
  }

  /** Both directions, one after the other, on the running database. */
  method UpThenDown(db: MergeAccountAndOrganization, orgId: map<Id, Id>, choice: map<Id, Id>, personal: map<Id, Id>)
    requires WellFormed(db.Snapshot()) && GeneratesIds(db.details.value, orgId)
    requires LegalChoice(db.Snapshot(), orgId, choice) && LegalPersonal(db.Snapshot(), personal)
    modifies db
    ensures db.Snapshot() == old(db.Snapshot())
  {
    ghost var t := db.Snapshot();
    var up, after := db.Up(orgId, choice);
    UpSucceeds(t, orgId, choice, after);
    PersonalTenantsStay(t, after, personal);
    var down := db.Down(personal);
    DownUndoesUp(t, orgId, choice, after, personal, db.Snapshot());
  }

  lemma PersonalTenantsStay(t: Tables, after: Tables, personal: map<Id, Id>)
    requires after.members == t.members && after.tenants == t.tenants && LegalPersonal(t, personal)
    ensures LegalPersonal(after, personal)
  {
    forall user ensures PersonalTenants(after, user) == PersonalTenants(t, user) {
    }
  }
}
