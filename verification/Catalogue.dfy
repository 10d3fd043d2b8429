/**
  The catalogue of accounts cached in Redis (appendAccountToCatalog,
  refreshCatalogForOrganizationMembers, replaceAccountInCatalog, removeAccountFromCatalog and
  toCatalogEntry in src/account/account.service.ts), with the use cases that call them. One operation
  runs at a time; `redisFails` says that Redis does not answer, which no operation reports.
 */
module Catalogue {
  import opened Wrappers

  type AccountId = nat
  type OrganizationId = nat
  type UserId = string

  datatype AccountType = PERSONAL | ORGANIZATION

  datatype Organization = Organization(name: string, displayName: string, indexDocuments: bool)

  datatype Account = Account(userId: UserId, accountType: AccountType, createdAt: int,
                             organizationId: Option<OrganizationId>, roleId: string, isActive: bool)

  datatype AccountData = AccountData(id: AccountId, accountType: AccountType, createdAt: int,
                                     organizationId: Option<OrganizationId>, organizationDetail: Option<Organization>,
                                     roleId: string, isActive: bool)

  type Accounts = map<AccountId, Account>
  type Organizations = map<OrganizationId, Organization>

  /** The value under accounts:{userId}, by user. */
  type Redis = map<UserId, seq<AccountData>>

  function ToCatalogEntry(organizations: Organizations, id: AccountId, a: Account): AccountData {
    AccountData(id, a.accountType, a.createdAt, a.organizationId,
                if a.organizationId.Some? && a.organizationId.value in organizations
                then Some(organizations[a.organizationId.value]) else None,
                a.roleId, a.isActive)
  }

  /** getAccountsCatalog: a missing key is an empty catalogue. */
  function CatalogueOf(redis: Redis, user: UserId): seq<AccountData> {
    if user in redis then redis[user] else []
  }

  predicate IsActiveAccountOf(accounts: Accounts, user: UserId, id: AccountId) {
    id in accounts && accounts[id].userId == user && accounts[id].isActive
  }

  /** The entry is up to date and belongs there. */
  predicate IsFresh(accounts: Accounts, organizations: Organizations, user: UserId, e: AccountData) {
    IsActiveAccountOf(accounts, user, e.id) && e == ToCatalogEntry(organizations, e.id, accounts[e.id])
  }

  predicate EachIdOnce(catalogue: seq<AccountData>) {
    forall i, j :: 0 <= i < j < |catalogue| ==> catalogue[i].id != catalogue[j].id
  }

  predicate HasEntry(catalogue: seq<AccountData>, id: AccountId) {
    exists i :: 0 <= i < |catalogue| && catalogue[i].id == id
  }

  /** The catalogue is the image of the user's active accounts, each once. */
  ghost predicate Agrees(accounts: Accounts, organizations: Organizations, user: UserId, catalogue: seq<AccountData>) {
    && EachIdOnce(catalogue)
    && (forall i :: 0 <= i < |catalogue| ==> IsFresh(accounts, organizations, user, catalogue[i]))
    && (forall id :: IsActiveAccountOf(accounts, user, id) ==> HasEntry(catalogue, id))
  }

  ghost predicate AllAgree(accounts: Accounts, organizations: Organizations, redis: Redis) {
    forall user :: Agrees(accounts, organizations, user, CatalogueOf(redis, user))
  }

  /** accounts.organization_id references organizations. */
  predicate KeysHold(accounts: Accounts, organizations: Organizations) {
    forall id :: id in accounts && accounts[id].organizationId.Some? ==> accounts[id].organizationId.value in organizations
  }

  ghost predicate InSync(accounts: Accounts, organizations: Organizations, redis: Redis) {
    KeysHold(accounts, organizations) && AllAgree(accounts, organizations, redis)
  }

  // ------------------------------------------------------------------------------------------
  // Appending.
  // ------------------------------------------------------------------------------------------

  lemma AppendAgrees(accounts: Accounts, organizations: Organizations, organizations': Organizations,
                     catalogue: seq<AccountData>, id: AccountId, a: Account)
    requires KeysHold(accounts, organizations) && Agrees(accounts, organizations, a.userId, catalogue)
    requires id !in accounts && a.isActive
    requires organizations.Keys <= organizations'.Keys
    requires forall o :: o in organizations ==> organizations'[o] == organizations[o]
    ensures Agrees(accounts[id := a], organizations', a.userId, catalogue + [ToCatalogEntry(organizations', id, a)])
  {
    var entry := ToCatalogEntry(organizations', id, a);
    var catalogue' := catalogue + [entry];
    forall i | 0 <= i < |catalogue'| ensures IsFresh(accounts[id := a], organizations', a.userId, catalogue'[i]) {
      assert i < |catalogue| ==> IsFresh(accounts, organizations, a.userId, catalogue[i]);
    }
    forall x | IsActiveAccountOf(accounts[id := a], a.userId, x) ensures HasEntry(catalogue', x) {
      if x == id {
        assert catalogue'[|catalogue|].id == id;
      } else {
        assert IsActiveAccountOf(accounts, a.userId, x);
        var i :| 0 <= i < |catalogue| && catalogue[i].id == x;
        assert catalogue'[i].id == x;
      }
    }
  }

  /** An account of somebody else, and a new organization, change nothing. */
  lemma OthersAgree(accounts: Accounts, organizations: Organizations, organizations': Organizations,
                    user: UserId, catalogue: seq<AccountData>, id: AccountId, a: Account)
    requires KeysHold(accounts, organizations) && Agrees(accounts, organizations, user, catalogue)
    requires (id in accounts ==> accounts[id].userId != user) && a.userId != user
    requires organizations.Keys <= organizations'.Keys
    requires forall o :: o in organizations ==> organizations'[o] == organizations[o]
    ensures Agrees(accounts[id := a], organizations', user, catalogue)
  {
    forall i | 0 <= i < |catalogue| ensures IsFresh(accounts[id := a], organizations', user, catalogue[i]) {
      assert IsFresh(accounts, organizations, user, catalogue[i]);
    }
    forall x | IsActiveAccountOf(accounts[id := a], user, x) ensures HasEntry(catalogue, x) {
      assert IsActiveAccountOf(accounts, user, x);
    }
  }

  // ------------------------------------------------------------------------------------------
  // Removing.
  // ------------------------------------------------------------------------------------------

  /** catalog.filter((entry) => entry.id !== id) */
  function Without(catalogue: seq<AccountData>, id: AccountId): (r: seq<AccountData>)
    ensures |r| <= |catalogue|
    ensures forall e :: e in r <==> e in catalogue && e.id != id
  {
    if catalogue == [] then []
    else if catalogue[0].id == id then Without(catalogue[1..], id)
    else [catalogue[0]] + Without(catalogue[1..], id)
  }

  lemma {:induction false} WithoutKeepsOrder(catalogue: seq<AccountData>, id: AccountId)
    requires EachIdOnce(catalogue)
    ensures EachIdOnce(Without(catalogue, id))
  {
    if catalogue != [] {
      var rest := Without(catalogue[1..], id);
      WithoutKeepsOrder(catalogue[1..], id);
      HeadIsApart(catalogue, rest);
    }
  }

  lemma HeadIsApart(catalogue: seq<AccountData>, rest: seq<AccountData>)
    requires catalogue != [] && EachIdOnce(catalogue) && EachIdOnce(rest)
    requires forall e :: e in rest ==> e in catalogue[1..]
    ensures EachIdOnce([catalogue[0]] + rest)
  {
    forall i | 0 <= i < |rest| ensures rest[i].id != catalogue[0].id {
      assert rest[i] in rest;
      var j :| 0 <= j < |catalogue[1..]| && catalogue[1..][j] == rest[i];
      assert catalogue[j + 1] == rest[i];
    }
  }

  lemma {:induction false} NothingRemoved(catalogue: seq<AccountData>, id: AccountId)
    ensures |Without(catalogue, id)| == |catalogue| ==> Without(catalogue, id) == catalogue
  {
    if catalogue != [] {
      NothingRemoved(catalogue[1..], id);
      assert catalogue == [catalogue[0]] + catalogue[1..];
    }
  }

  lemma RemoveAgrees(accounts: Accounts, organizations: Organizations, catalogue: seq<AccountData>, id: AccountId,
                     a: Account)
    requires id in accounts && Agrees(accounts, organizations, a.userId, catalogue)
    requires !a.isActive && a.userId == accounts[id].userId
    ensures Agrees(accounts[id := a], organizations, a.userId, Without(catalogue, id))
  {
    var r := Without(catalogue, id);
    WithoutKeepsOrder(catalogue, id);
    forall i | 0 <= i < |r| ensures IsFresh(accounts[id := a], organizations, a.userId, r[i]) {
      assert r[i] in r;
      var j :| 0 <= j < |catalogue| && catalogue[j] == r[i];
      assert IsFresh(accounts, organizations, a.userId, catalogue[j]);
    }
    forall x | IsActiveAccountOf(accounts[id := a], a.userId, x) ensures HasEntry(r, x) {
      assert IsActiveAccountOf(accounts, a.userId, x);
      var i :| 0 <= i < |catalogue| && catalogue[i].id == x;
      assert catalogue[i] in r;
      var j :| 0 <= j < |r| && r[j] == catalogue[i];
    }
  }

  // ------------------------------------------------------------------------------------------
  // Replacing.
  // ------------------------------------------------------------------------------------------

  /** catalog.findIndex((entry) => entry.id === id), or -1 */
  function FindIndex(catalogue: seq<AccountData>, id: AccountId): (i: int)
    ensures -1 <= i < |catalogue|
    ensures i == -1 <==> !HasEntry(catalogue, id)
    ensures i >= 0 ==> catalogue[i].id == id
  {
    if catalogue == [] then -1
    else if catalogue[0].id == id then 0
    else
      var rest := FindIndex(catalogue[1..], id);
      assert forall i :: 1 <= i < |catalogue| ==> catalogue[i] == catalogue[1..][i - 1];
      if rest == -1 then -1 else rest + 1
  }

  function Replaced(catalogue: seq<AccountData>, entry: AccountData): seq<AccountData> {
    var index := FindIndex(catalogue, entry.id);
    if index == -1 then catalogue else catalogue[index := entry]
  }

  /** A legal answer to find({ where: { organizationId, isActive: true } }). */
  ghost predicate IsMemberList(accounts: Accounts, organizationId: OrganizationId, members: seq<AccountId>) {
    && (forall i, j :: 0 <= i < j < |members| ==> members[i] != members[j])
    && (forall id :: id in members <==>
          id in accounts && accounts[id].organizationId == Some(organizationId) && accounts[id].isActive)
  }

  /** The entries of the accounts in `done` are replaced, the others as they were. */
  ghost predicate IsRefreshed(accounts: Accounts, organizations: Organizations, before: seq<AccountData>,
                              done: seq<AccountId>, after: seq<AccountData>) {
    && |after| == |before|
    && forall i :: 0 <= i < |before| ==> IsRefreshedEntry(accounts, organizations, before[i], done, after[i])
  }

  predicate IsRefreshedEntry(accounts: Accounts, organizations: Organizations, before: AccountData,
                             done: seq<AccountId>, after: AccountData) {
    if before.id in done && before.id in accounts then after == ToCatalogEntry(organizations, before.id, accounts[before.id])
    else after == before
  }

  /** Replacing one more member's entry in that member's catalogue. */
  lemma ReplaceRefreshes(accounts: Accounts, organizations: Organizations, before: seq<AccountData>,
                         done: seq<AccountId>, after: seq<AccountData>, id: AccountId)
    requires id in accounts && EachIdOnce(before) && IsRefreshed(accounts, organizations, before, done, after)
    ensures IsRefreshed(accounts, organizations, before, done + [id],
                        Replaced(after, ToCatalogEntry(organizations, id, accounts[id])))
  {
    var entry := ToCatalogEntry(organizations, id, accounts[id]);
    var r := Replaced(after, entry);
    forall i | 0 <= i < |before| ensures IsRefreshedEntry(accounts, organizations, before[i], done + [id], r[i]) {
      assert IsRefreshedEntry(accounts, organizations, before[i], done, after[i]);
      assert after[i].id == before[i].id;
      var index := FindIndex(after, id);
      if before[i].id == id {
        assert HasEntry(after, id);
        assert IsRefreshedEntry(accounts, organizations, before[index], done, after[index]);
        assert before[index].id == id;
        assert index == i;
      }
    }
  }

  /** No other catalogue holds that member's account. */
  lemma ReplaceElsewhere(accounts: Accounts, organizations: Organizations, organizations': Organizations, user: UserId,
                         before: seq<AccountData>, done: seq<AccountId>, after: seq<AccountData>, id: AccountId)
    requires id in accounts && accounts[id].userId != user
    requires Agrees(accounts, organizations, user, before)
    requires IsRefreshed(accounts, organizations', before, done, after)
    ensures IsRefreshed(accounts, organizations', before, done + [id], after)
  {
    forall i | 0 <= i < |before| ensures IsRefreshedEntry(accounts, organizations', before[i], done + [id], after[i]) {
      assert IsFresh(accounts, organizations, user, before[i]);
      assert IsRefreshedEntry(accounts, organizations', before[i], done, after[i]);
    }
  }

  ghost predicate AllRefreshed(accounts: Accounts, organizations: Organizations, before: Redis, done: seq<AccountId>,
                               after: Redis) {
    forall u :: IsRefreshed(accounts, organizations, CatalogueOf(before, u), done, CatalogueOf(after, u))
  }

  ghost predicate SameCatalogues(a: Redis, b: Redis) {
    forall u :: CatalogueOf(a, u) == CatalogueOf(b, u)
  }

  lemma NothingRefreshed(accounts: Accounts, organizations: Organizations, redis: Redis)
    ensures AllRefreshed(accounts, organizations, redis, [], redis)
  {
  }

  lemma OneMoreRefreshed(accounts: Accounts, organizations: Organizations, organizations': Organizations, before: Redis,
                         done: seq<AccountId>, cached: Redis, id: AccountId, after: Redis)
    requires AllAgree(accounts, organizations, before)
    requires AllRefreshed(accounts, organizations', before, done, cached) && id in accounts
    requires CatalogueOf(after, accounts[id].userId)
          == Replaced(CatalogueOf(cached, accounts[id].userId), ToCatalogEntry(organizations', id, accounts[id]))
    requires forall u :: u != accounts[id].userId ==> CatalogueOf(after, u) == CatalogueOf(cached, u)
    ensures AllRefreshed(accounts, organizations', before, done + [id], after)
  {
    var more := done + [id];
    forall u ensures IsRefreshed(accounts, organizations', CatalogueOf(before, u), more, CatalogueOf(after, u)) {
      assert Agrees(accounts, organizations, u, CatalogueOf(before, u));
      assert IsRefreshed(accounts, organizations', CatalogueOf(before, u), done, CatalogueOf(cached, u));
      if u == accounts[id].userId {
        ReplaceRefreshes(accounts, organizations', CatalogueOf(before, u), done, CatalogueOf(cached, u), id);
      } else {
        ReplaceElsewhere(accounts, organizations, organizations', u, CatalogueOf(before, u), done, CatalogueOf(cached, u), id);
      }
    }
  }

  ghost predicate IsRefreshing(accounts: Accounts, organizations: Organizations, before: Redis, done: seq<AccountId>,
                               fails: bool, after: Redis) {
    if fails then SameCatalogues(after, before) else AllRefreshed(accounts, organizations, before, done, after)
  }

  lemma OneMoreMember(accounts: Accounts, organizations: Organizations, organizations': Organizations, before: Redis,
                      done: seq<AccountId>, cached: Redis, id: AccountId, fails: bool, after: Redis)
    requires AllAgree(accounts, organizations, before) && id in accounts
    requires IsRefreshing(accounts, organizations', before, done, fails, cached)
    requires CatalogueOf(after, accounts[id].userId)
          == if fails then CatalogueOf(cached, accounts[id].userId)
             else Replaced(CatalogueOf(cached, accounts[id].userId), ToCatalogEntry(organizations', id, accounts[id]))
    requires forall u :: u != accounts[id].userId ==> CatalogueOf(after, u) == CatalogueOf(cached, u)
    ensures IsRefreshing(accounts, organizations', before, done + [id], fails, after)
  {
    if !fails {
      OneMoreRefreshed(accounts, organizations, organizations', before, done, cached, id, after);
    }
  }

  /** Once every active member is done, the catalogue shows the new profile. */
  lemma RefreshAgrees(accounts: Accounts, organizations: Organizations, o: OrganizationId, profile: Organization,
                      user: UserId, before: seq<AccountData>, members: seq<AccountId>, after: seq<AccountData>)
    requires Agrees(accounts, organizations, user, before) && IsMemberList(accounts, o, members)
    requires IsRefreshed(accounts, organizations[o := profile], before, members, after)
    ensures Agrees(accounts, organizations[o := profile], user, after)
  {
    var organizations' := organizations[o := profile];
    forall i | 0 <= i < |after| ensures IsFresh(accounts, organizations', user, after[i]) && after[i].id == before[i].id {
      assert IsFresh(accounts, organizations, user, before[i]);
      assert IsRefreshedEntry(accounts, organizations', before[i], members, after[i]);
    }
    forall id | IsActiveAccountOf(accounts, user, id) ensures HasEntry(after, id) {
      var i :| 0 <= i < |before| && before[i].id == id;
      assert after[i].id == id;
    }
  }

  // ------------------------------------------------------------------------------------------
  // Operations that write accounts and do not touch the catalogue.
  // ------------------------------------------------------------------------------------------

  /**
    UpdateAccountMemberUseCase changes a membership and leaves the catalogue alone. They still agree
    exactly when the member's entry is the same as before, or there is none before and after.
   */
  lemma SilentUpdateKeepsSyncIff(accounts: Accounts, organizations: Organizations, redis: Redis, id: AccountId, a: Account)
    requires InSync(accounts, organizations, redis) && id in accounts
    requires a.userId == accounts[id].userId && a.organizationId == accounts[id].organizationId
    ensures InSync(accounts[id := a], organizations, redis)
       <==> (!a.isActive && !accounts[id].isActive)
            || ToCatalogEntry(organizations, id, a) == ToCatalogEntry(organizations, id, accounts[id])
  {
    var user, accounts' := a.userId, accounts[id := a];
    var catalogue := CatalogueOf(redis, user);
    assert Agrees(accounts, organizations, user, catalogue);
    if InSync(accounts', organizations, redis) {
      assert Agrees(accounts', organizations, user, catalogue);
      SameEntry(accounts, accounts', organizations, user, catalogue, id);
    } else if (!a.isActive && !accounts[id].isActive)
              || ToCatalogEntry(organizations, id, a) == ToCatalogEntry(organizations, id, accounts[id]) {
      forall u ensures Agrees(accounts', organizations, u, CatalogueOf(redis, u)) {
        assert Agrees(accounts, organizations, u, CatalogueOf(redis, u));
        HarmlessUpdate(accounts, organizations, u, CatalogueOf(redis, u), id, a);
      }
    }
  }

  lemma HarmlessUpdate(accounts: Accounts, organizations: Organizations, user: UserId, catalogue: seq<AccountData>,
                       id: AccountId, a: Account)
    requires Agrees(accounts, organizations, user, catalogue) && id in accounts && a.userId == accounts[id].userId
    requires (!a.isActive && !accounts[id].isActive)
             || ToCatalogEntry(organizations, id, a) == ToCatalogEntry(organizations, id, accounts[id])
    ensures Agrees(accounts[id := a], organizations, user, catalogue)
  {
    forall i | 0 <= i < |catalogue| ensures IsFresh(accounts[id := a], organizations, user, catalogue[i]) {
      assert IsFresh(accounts, organizations, user, catalogue[i]);
    }
    forall x | IsActiveAccountOf(accounts[id := a], user, x) ensures HasEntry(catalogue, x) {
      assert IsActiveAccountOf(accounts, user, x);
    }
  }

  /** A catalogue that agrees with two states shows an account the same in both. */
  lemma SameEntry(accounts: Accounts, accounts': Accounts, organizations: Organizations, user: UserId,
                  catalogue: seq<AccountData>, id: AccountId)
    requires Agrees(accounts, organizations, user, catalogue) && Agrees(accounts', organizations, user, catalogue)
    requires id in accounts && id in accounts' && accounts[id].userId == accounts'[id].userId == user
    ensures (!accounts[id].isActive && !accounts'[id].isActive)
            || ToCatalogEntry(organizations, id, accounts[id]) == ToCatalogEntry(organizations, id, accounts'[id])
  {
    if accounts[id].isActive || accounts'[id].isActive {
      assert IsActiveAccountOf(accounts, user, id) || IsActiveAccountOf(accounts', user, id);
      var i :| 0 <= i < |catalogue| && catalogue[i].id == id;
      assert IsFresh(accounts, organizations, user, catalogue[i]) && IsFresh(accounts', organizations, user, catalogue[i]);
    }
  }

  /** GrantAccountAccessUseCase and CreateAccountUseCase insert an account and do not append it. */
  lemma SilentInsertKeepsSyncIff(accounts: Accounts, organizations: Organizations, redis: Redis, id: AccountId, a: Account)
    requires InSync(accounts, organizations, redis) && id !in accounts && KeysHold(accounts[id := a], organizations)
    ensures InSync(accounts[id := a], organizations, redis) <==> !a.isActive
  {
    var user, accounts' := a.userId, accounts[id := a];
    var catalogue := CatalogueOf(redis, user);
    assert Agrees(accounts, organizations, user, catalogue);
    if a.isActive {
      NewIdHasNoEntry(accounts, organizations, user, catalogue, id);
      assert IsActiveAccountOf(accounts', user, id);
    } else {
      forall u ensures Agrees(accounts', organizations, u, CatalogueOf(redis, u)) {
        InactiveInsert(accounts, organizations, u, CatalogueOf(redis, u), id, a);
      }
    }
  }

  lemma NewIdHasNoEntry(accounts: Accounts, organizations: Organizations, user: UserId, catalogue: seq<AccountData>,
                        id: AccountId)
    requires Agrees(accounts, organizations, user, catalogue) && id !in accounts
    ensures !HasEntry(catalogue, id)
  {
    forall i | 0 <= i < |catalogue| ensures catalogue[i].id != id {
      assert IsFresh(accounts, organizations, user, catalogue[i]);
    }
  }

  lemma InactiveInsert(accounts: Accounts, organizations: Organizations, user: UserId, catalogue: seq<AccountData>,
                       id: AccountId, a: Account)
    requires Agrees(accounts, organizations, user, catalogue) && id !in accounts && !a.isActive
    ensures Agrees(accounts[id := a], organizations, user, catalogue)
  {
    forall i | 0 <= i < |catalogue| ensures IsFresh(accounts[id := a], organizations, user, catalogue[i]) {
      assert IsFresh(accounts, organizations, user, catalogue[i]);
    }
    forall x | IsActiveAccountOf(accounts[id := a], user, x) ensures HasEntry(catalogue, x) {
      assert IsActiveAccountOf(accounts, user, x);
    }
  }

  lemma AppendKeepsSync(accounts: Accounts, organizations: Organizations, organizations': Organizations, redis: Redis,
                        id: AccountId, a: Account)
    requires InSync(accounts, organizations, redis) && id !in accounts && a.isActive
    requires organizations.Keys <= organizations'.Keys
    requires forall o :: o in organizations ==> organizations'[o] == organizations[o]
    requires a.organizationId.Some? ==> a.organizationId.value in organizations'
    ensures InSync(accounts[id := a], organizations',
                   redis[a.userId := CatalogueOf(redis, a.userId) + [ToCatalogEntry(organizations', id, a)]])
  {
    var redis' := redis[a.userId := CatalogueOf(redis, a.userId) + [ToCatalogEntry(organizations', id, a)]];
    forall user ensures Agrees(accounts[id := a], organizations', user, CatalogueOf(redis', user)) {
      assert Agrees(accounts, organizations, user, CatalogueOf(redis, user));
      if user == a.userId {
        AppendAgrees(accounts, organizations, organizations', CatalogueOf(redis, user), id, a);
      } else {
        OthersAgree(accounts, organizations, organizations', user, CatalogueOf(redis, user), id, a);
      }
    }
  }

  // ------------------------------------------------------------------------------------------
  // Sequences of operations, Redis answering.
  // ------------------------------------------------------------------------------------------

  datatype State = State(accounts: Accounts, organizations: Organizations, redis: Redis)

  /** `members` is the order in which the database lists the members to refresh. */
  datatype Operation =
    | OpenAccount(id: AccountId, account: Account)
    | FoundOrganization(o: OrganizationId, organization: Organization, id: AccountId, account: Account)
    | Rename(o: OrganizationId, profile: Organization, members: seq<AccountId>)
    | Revoke(id: AccountId)

  ghost predicate IsAllowed(s: State, op: Operation) {
    match op
    case OpenAccount(id, account) =>
      id !in s.accounts && account.isActive
      && (account.organizationId.Some? ==> account.organizationId.value in s.organizations)
    case FoundOrganization(o, _, id, account) =>
      id !in s.accounts && o !in s.organizations && account.isActive && account.organizationId == Some(o)
    case Rename(o, _, members) => o in s.organizations && IsMemberList(s.accounts, o, members)
    case Revoke(id) => id in s.accounts && s.accounts[id].isActive
  }

  function Appended(redis: Redis, user: UserId, entry: AccountData): Redis {
    redis[user := CatalogueOf(redis, user) + [entry]]
  }

  /** What one operation makes of the tables and, entry by entry, of the catalogues. */
  ghost predicate Performs(s: State, op: Operation, t: State)
    requires IsAllowed(s, op)
  {
    match op
    case OpenAccount(id, account) =>
      t == State(s.accounts[id := account], s.organizations,
                 Appended(s.redis, account.userId, ToCatalogEntry(s.organizations, id, account)))
    case FoundOrganization(o, organization, id, account) =>
      var organizations := s.organizations[o := organization];
      t == State(s.accounts[id := account], organizations,
                 Appended(s.redis, account.userId, ToCatalogEntry(organizations, id, account)))
    case Rename(o, profile, members) =>
      && t.accounts == s.accounts && t.organizations == s.organizations[o := profile]
      && AllRefreshed(s.accounts, t.organizations, s.redis, members, t.redis)
    case Revoke(id) =>
      var a := s.accounts[id];
      && t.accounts == s.accounts[id := a.(isActive := false)] && t.organizations == s.organizations
      && CatalogueOf(t.redis, a.userId) == Without(CatalogueOf(s.redis, a.userId), id)
      && forall u :: u != a.userId ==> CatalogueOf(t.redis, u) == CatalogueOf(s.redis, u)
  }

  ghost predicate Synced(s: State) {
    InSync(s.accounts, s.organizations, s.redis)
  }

  lemma RenameKeepsSync(s: State, op: Operation, t: State)
    requires Synced(s) && op.Rename? && IsAllowed(s, op) && Performs(s, op, t)
    ensures Synced(t)
  {
    forall user ensures Agrees(t.accounts, t.organizations, user, CatalogueOf(t.redis, user)) {
      assert Agrees(s.accounts, s.organizations, user, CatalogueOf(s.redis, user));
      assert IsRefreshed(s.accounts, t.organizations, CatalogueOf(s.redis, user), op.members, CatalogueOf(t.redis, user));
      RefreshAgrees(s.accounts, s.organizations, op.o, op.profile, user, CatalogueOf(s.redis, user), op.members,
                    CatalogueOf(t.redis, user));
    }
  }

  lemma RevokeKeepsSync(s: State, op: Operation, t: State)
    requires Synced(s) && op.Revoke? && IsAllowed(s, op) && Performs(s, op, t)
    ensures Synced(t)
  {
    var a := s.accounts[op.id];
    var removed := a.(isActive := false);
    forall user ensures Agrees(t.accounts, t.organizations, user, CatalogueOf(t.redis, user)) {
      assert Agrees(s.accounts, s.organizations, user, CatalogueOf(s.redis, user));
      if user == a.userId {
        RemoveAgrees(s.accounts, s.organizations, CatalogueOf(s.redis, user), op.id, removed);
      } else {
        OthersAgree(s.accounts, s.organizations, s.organizations, user, CatalogueOf(s.redis, user), op.id, removed);
      }
    }
  }

  lemma OperationKeepsSync(s: State, op: Operation, t: State)
    requires Synced(s) && IsAllowed(s, op) && Performs(s, op, t)
    ensures Synced(t)
  {
    match op
    case OpenAccount(id, account) =>
      AppendKeepsSync(s.accounts, s.organizations, s.organizations, s.redis, id, account);
    case FoundOrganization(o, organization, id, account) =>
      AppendKeepsSync(s.accounts, s.organizations, s.organizations[o := organization], s.redis, id, account);
    case Rename(_, _, _) => RenameKeepsSync(s, op, t);
    case Revoke(_) => RevokeKeepsSync(s, op, t);
  }

  ghost predicate IsRun(run: seq<State>, operations: seq<Operation>) {
    && |run| == |operations| + 1 && run[0] == State(map[], map[], map[])
    && forall i :: 0 <= i < |operations| ==> IsAllowed(run[i], operations[i]) && Performs(run[i], operations[i], run[i + 1])
  }

  /**
    Over every sequence of creations, renames and revocations, in every order and for every user, the
    cached catalogue is the image of that user's active accounts, each once.
   */
  lemma {:induction false} CatalogueIsTheImage(run: seq<State>, operations: seq<Operation>, i: nat, user: UserId)
    requires IsRun(run, operations) && i < |run|
    ensures Synced(run[i])
    ensures Agrees(run[i].accounts, run[i].organizations, user, CatalogueOf(run[i].redis, user))
  {
    if i > 0 {
      CatalogueIsTheImage(run, operations, i - 1, user);
      OperationKeepsSync(run[i - 1], operations[i - 1], run[i]);
    }
  }

  /** The one entry of an account: its own type, role and dates, with the profile of its organization. */
  ghost predicate IsShownAs(catalogue: seq<AccountData>, id: AccountId, a: Account, profile: Option<Organization>) {
    && AccountData(id, a.accountType, a.createdAt, a.organizationId, profile, a.roleId, true) in catalogue
    && forall e :: e in catalogue && e.id == id ==> e.accountType == a.accountType && e.organizationDetail == profile
  }

  /** In agreement, every active account is shown with what the tables say of it, and nothing else is shown. */
  lemma ActiveAccountIsShown(s: State, id: AccountId)
    requires Synced(s) && id in s.accounts && s.accounts[id].isActive
    ensures var a := s.accounts[id];
            && (a.organizationId.Some? ==> a.organizationId.value in s.organizations)
            && IsShownAs(CatalogueOf(s.redis, a.userId), id, a,
                         if a.organizationId.Some? then Some(s.organizations[a.organizationId.value]) else None)
  {
    var a := s.accounts[id];
    var catalogue := CatalogueOf(s.redis, a.userId);
    assert Agrees(s.accounts, s.organizations, a.userId, catalogue);
    assert IsActiveAccountOf(s.accounts, a.userId, id);
    var i :| 0 <= i < |catalogue| && catalogue[i].id == id;
    assert IsFresh(s.accounts, s.organizations, a.userId, catalogue[i]);
    forall e | e in catalogue && e.id == id ensures e == catalogue[i] {
      var j :| 0 <= j < |catalogue| && catalogue[j] == e;
      assert IsFresh(s.accounts, s.organizations, a.userId, catalogue[j]);
    }
  }

  lemma ShownIsActive(s: State, user: UserId, e: AccountData)
    requires Synced(s) && e in CatalogueOf(s.redis, user)
    ensures e.id in s.accounts && s.accounts[e.id].userId == user && s.accounts[e.id].isActive && e.isActive
    ensures e.roleId == s.accounts[e.id].roleId && e.organizationId == s.accounts[e.id].organizationId
  {
    var catalogue := CatalogueOf(s.redis, user);
    assert Agrees(s.accounts, s.organizations, user, catalogue);
    var i :| 0 <= i < |catalogue| && catalogue[i] == e;
    assert IsFresh(s.accounts, s.organizations, user, catalogue[i]);
  }

  // ------------------------------------------------------------------------------------------
  // The service and its callers.
  // ------------------------------------------------------------------------------------------

  class AccountService {
    var accounts: Accounts
    var organizations: Organizations
    var redis: Redis

    constructor ()
      ensures accounts == map[] && organizations == map[] && redis == map[]
      ensures Synced(Snapshot())
    {
      accounts, organizations, redis := map[], map[], map[];
    }

    method AppendAccountToCatalog(userId: UserId, id: AccountId, account: Account, redisFails: bool)
      modifies this`redis
      ensures redis == if redisFails then old(redis)
                       else old(redis)[userId := CatalogueOf(old(redis), userId) + [ToCatalogEntry(organizations, id, account)]]
    {
      if redisFails {
        return;
      }
      var catalog := if userId in redis then redis[userId] else [];
      catalog := catalog + [ToCatalogEntry(organizations, id, account)];
      redis := redis[userId := catalog];
    }

    method ReplaceAccountInCatalog(userId: UserId, id: AccountId, account: Account, redisFails: bool)
      modifies this`redis
      ensures CatalogueOf(redis, userId) ==
              if redisFails then CatalogueOf(old(redis), userId)
              else Replaced(CatalogueOf(old(redis), userId), ToCatalogEntry(organizations, id, account))
      ensures forall u :: u != userId ==> CatalogueOf(redis, u) == CatalogueOf(old(redis), u)
    {
      if redisFails || userId !in redis {
        return;
      }
      var catalog := redis[userId];
      var index := FindIndex(catalog, id);
      if index == -1 {
        return;
      }
      redis := redis[userId := catalog[index := ToCatalogEntry(organizations, id, account)]];
    }

    method RemoveAccountFromCatalog(userId: UserId, id: AccountId, redisFails: bool)
      modifies this`redis
      ensures CatalogueOf(redis, userId) ==
              if redisFails then CatalogueOf(old(redis), userId) else Without(CatalogueOf(old(redis), userId), id)
      ensures forall u :: u != userId ==> CatalogueOf(redis, u) == CatalogueOf(old(redis), u)
    {
      if redisFails || userId !in redis {
        return;
      }
      var catalog := redis[userId];
      var filtered := Without(catalog, id);
      if |filtered| == |catalog| {
        NothingRemoved(catalog, id);
        return;
      }
      redis := redis[userId := filtered];
    }

    /** `before` are the organizations as they were when the catalogues last agreed. */
    method RefreshCatalogForOrganizationMembers(organizationId: OrganizationId, members: seq<AccountId>, redisFails: bool,
                                                ghost before: Organizations)
      requires IsMemberList(accounts, organizationId, members) && AllAgree(accounts, before, redis)
      modifies this`redis
      ensures redisFails ==> SameCatalogues(redis, old(redis))
      ensures !redisFails ==> AllRefreshed(accounts, organizations, old(redis), members, redis)
    {
      NothingRefreshed(accounts, organizations, redis);
      ghost var cached := redis;
      for k := 0 to |members|
        invariant IsRefreshing(accounts, organizations, cached, members[..k], redisFails, redis)
      {
        var id := members[k];
        assert id in members && members[..k + 1] == members[..k] + [id];
        ghost var soFar := redis;
        ReplaceAccountInCatalog(accounts[id].userId, id, accounts[id], redisFails);
        OneMoreMember(accounts, before, organizations, cached, members[..k], soFar, id, redisFails, redis);
      }
      assert members[..|members|] == members;
    }

    function Snapshot(): State
      reads this
    {
      State(accounts, organizations, redis)
    }

    /** Registering a user, adding a member or accepting an invitation: insert, then append. */
    method CreateAccount(id: AccountId, account: Account, redisFails: bool)
      requires Synced(Snapshot()) && IsAllowed(Snapshot(), OpenAccount(id, account))
      modifies this
      ensures accounts == old(accounts)[id := account] && organizations == old(organizations)
      ensures !redisFails ==> Performs(old(Snapshot()), OpenAccount(id, account), Snapshot())
      ensures Synced(Snapshot()) <==> !redisFails
    {
      ghost var before := Snapshot();
      accounts := accounts[id := account];
      AppendAccountToCatalog(account.userId, id, account, redisFails);
      if redisFails {
        SilentInsertKeepsSyncIff(before.accounts, organizations, before.redis, id, account);
      } else {
        OperationKeepsSync(before, OpenAccount(id, account), Snapshot());
      }
    }

    /** CreateOrganizationUseCase: the organization and its owner's account, then append. */
    method CreateOrganization(o: OrganizationId, organization: Organization, id: AccountId, account: Account)
      requires Synced(Snapshot()) && IsAllowed(Snapshot(), FoundOrganization(o, organization, id, account))
      modifies this
      ensures Performs(old(Snapshot()), FoundOrganization(o, organization, id, account), Snapshot())
      ensures Synced(Snapshot())
    {
      ghost var before := Snapshot();
      organizations := organizations[o := organization];
      accounts := accounts[id := account];
      AppendAccountToCatalog(account.userId, id, account, false);
      OperationKeepsSync(before, FoundOrganization(o, organization, id, account), Snapshot());
    }

    /** UpdateOrganizationUseCase: the profile, then the catalogues of the active members. */
    method UpdateOrganization(o: OrganizationId, profile: Organization, members: seq<AccountId>)
      requires Synced(Snapshot()) && IsAllowed(Snapshot(), Rename(o, profile, members))
      modifies this
      ensures Performs(old(Snapshot()), Rename(o, profile, members), Snapshot())
      ensures Synced(Snapshot())
      ensures forall id :: id in accounts && accounts[id].isActive && accounts[id].organizationId == Some(o) ==>
        IsShownAs(CatalogueOf(redis, accounts[id].userId), id, accounts[id], Some(profile))
    {
      ghost var before := Snapshot();
      organizations := organizations[o := profile];
      RefreshCatalogForOrganizationMembers(o, members, false, before.organizations);
      OperationKeepsSync(before, Rename(o, profile, members), Snapshot());
      forall id | id in accounts && accounts[id].isActive && accounts[id].organizationId == Some(o)
        ensures IsShownAs(CatalogueOf(redis, accounts[id].userId), id, accounts[id], Some(profile))
      {
        ActiveAccountIsShown(Snapshot(), id);
      }
    }

    /** RevokeAccountAccessUseCase: the membership is kept, inactive; its entry goes. */
    method RevokeAccess(id: AccountId)
      requires Synced(Snapshot()) && IsAllowed(Snapshot(), Revoke(id))
      modifies this
      ensures Performs(old(Snapshot()), Revoke(id), Snapshot())
      ensures Synced(Snapshot())
    {
      ghost var before := Snapshot();
      var user := accounts[id].userId;
      accounts := accounts[id := accounts[id].(isActive := false)];
      RemoveAccountFromCatalog(user, id, false);
      OperationKeepsSync(before, Revoke(id), Snapshot());
    }
  }
}
