/**
  Adding the collaborators of a document to the directory (addManualCollaboratorsToDirectory and
  findOrCreateDirectory in src/directory/directory-collaborators.service.ts).

  The table of contacts is keyed by its unique pair (directory, normalised email); archived contacts
  keep their row and their key. `normalise` stands for normalizeContactEmail, `link` for the lookup
  of a personal account and `newId` for the uuid a new row gets.
 */
module DirectoryUpsert {
  import opened Wrappers

  type AccountId = nat
  type DirectoryId = nat

  datatype Identity = Identity(firstName: string, lastName: string, email: string)

  /** An organization membership names its organization, save for broken data. */
  datatype Account = Account(id: AccountId, isOrganization: bool, organizationId: Option<nat>)

  datatype Owner = OfOrganization(organizationId: nat) | OfPerson(personalAccountId: AccountId)

  datatype Contact = Contact(id: nat, firstName: string, lastName: string, taxId: Option<string>, phone: Option<string>,
                             linkedPersonalAccountId: Option<AccountId>, createdBy: AccountId, updatedBy: AccountId,
                             archivedAt: Option<int>)

  datatype Key = Key(directory: DirectoryId, email: string)

  type Contacts = map<Key, Contact>

  function OwnerOf(a: Account): Option<Owner> {
    if !a.isOrganization then Some(OfPerson(a.id))
    else if a.organizationId.Some? then Some(OfOrganization(a.organizationId.value))
    else None
  }

  /** The first collaborator with that email, which is the one that counts. */
  function FirstWith(normalise: string -> string, collaborators: seq<Identity>, email: string): Option<Identity> {
    if collaborators == [] then None
    else
      var n := |collaborators| - 1;
      var earlier := FirstWith(normalise, collaborators[..n], email);
      if earlier.Some? then earlier
      else if normalise(collaborators[n].email) == email then Some(collaborators[n].(email := email))
      else None
  }

  /** FirstWith means what it says. */
  lemma {:induction false} FirstWithIsFirst(normalise: string -> string, collaborators: seq<Identity>, email: string)
    ensures match FirstWith(normalise, collaborators, email)
            case None => forall i :: 0 <= i < |collaborators| ==> normalise(collaborators[i].email) != email
            case Some(c) => exists i :: 0 <= i < |collaborators| && IsFirst(normalise, collaborators, email, i)
                              && c == collaborators[i].(email := email)
  {
    if collaborators != [] {
      var n := |collaborators| - 1;
      var earlier := FirstWith(normalise, collaborators[..n], email);
      FirstWithIsFirst(normalise, collaborators[..n], email);
      if earlier.Some? {
        var i :| 0 <= i < n && IsFirst(normalise, collaborators[..n], email, i)
                 && earlier.value == collaborators[..n][i].(email := email);
        assert IsFirst(normalise, collaborators, email, i);
      } else {
        assert forall i :: 0 <= i < n ==> collaborators[i] == collaborators[..n][i];
        assert normalise(collaborators[n].email) == email ==> IsFirst(normalise, collaborators, email, n);
      }
    }
  }

  predicate IsFirst(normalise: string -> string, collaborators: seq<Identity>, email: string, i: nat)
    requires i < |collaborators|
  {
    && normalise(collaborators[i].email) == email
    && forall j :: 0 <= j < i ==> normalise(collaborators[j].email) != email
  }

  function NewContact(c: Identity, id: nat, link: Option<AccountId>, author: AccountId): Contact {
    Contact(id, c.firstName, c.lastName, None, None, link, author, author, None)
  }

  /** An archived contact comes back under the new name; everything else it had stays. */
  function Reactivated(contact: Contact, c: Identity, author: AccountId): Contact {
    contact.(archivedAt := None, firstName := c.firstName, lastName := c.lastName, updatedBy := author)
  }

  /** What becomes of the row at one key, if `wanted` is to be there. */
  predicate IsUpserted(before: Contacts, after: Contacts, key: Key, wanted: Option<Identity>, author: AccountId,
                       link: string -> Option<AccountId>, newId: string -> nat) {
    match wanted
    case None => (key in after <==> key in before) && (key in before ==> after[key] == before[key])
    case Some(c) =>
      && key in after
      && after[key] ==
         if key !in before then NewContact(c, newId(key.email), link(key.email), author)
         else if before[key].archivedAt.Some? then Reactivated(before[key], c, author)
         else before[key]
  }

  /** Every row of the table after the collaborators have been added to `directory`. */
  ghost predicate AllUpserted(before: Contacts, after: Contacts, directory: DirectoryId, normalise: string -> string,
                              collaborators: seq<Identity>, author: AccountId, link: string -> Option<AccountId>,
                              newId: string -> nat) {
    forall key :: IsUpserted(before, after, key, Wanted(directory, normalise, collaborators, key), author, link, newId)
  }

  function Wanted(directory: DirectoryId, normalise: string -> string, collaborators: seq<Identity>, key: Key): Option<Identity> {
    if key.directory == directory then FirstWith(normalise, collaborators, key.email) else None
  }

  // ------------------------------------------------------------------------------------------
  // What the callers rely on.
  // ------------------------------------------------------------------------------------------

  /** Every collaborator's email has its one active contact. */
  lemma EveryCollaboratorIsActive(before: Contacts, after: Contacts, directory: DirectoryId, normalise: string -> string,
                                  collaborators: seq<Identity>, author: AccountId, link: string -> Option<AccountId>,
                                  newId: string -> nat, i: nat)
    requires AllUpserted(before, after, directory, normalise, collaborators, author, link, newId)
    requires i < |collaborators|
    ensures var key := Key(directory, normalise(collaborators[i].email));
            key in after && after[key].archivedAt.None?
  {
    var key := Key(directory, normalise(collaborators[i].email));
    FirstWithIsFirst(normalise, collaborators, key.email);
    assert IsUpserted(before, after, key, Wanted(directory, normalise, collaborators, key), author, link, newId);
  }

  /** The directory is the source of truth: a contact that was active, or that nobody named, is not touched. */
  lemma OthersAreNotTouched(before: Contacts, after: Contacts, directory: DirectoryId, normalise: string -> string,
                            collaborators: seq<Identity>, author: AccountId, link: string -> Option<AccountId>,
                            newId: string -> nat, key: Key)
    requires AllUpserted(before, after, directory, normalise, collaborators, author, link, newId)
    requires key in before
    requires before[key].archivedAt.None? || key.directory != directory
             || forall i :: 0 <= i < |collaborators| ==> normalise(collaborators[i].email) != key.email
    ensures key in after && after[key] == before[key]
  {
    FirstWithIsFirst(normalise, collaborators, key.email);
    assert IsUpserted(before, after, key, Wanted(directory, normalise, collaborators, key), author, link, newId);
  }

  /** No row disappears, and a new one belongs to some collaborator. */
  lemma NewRowsAreWanted(before: Contacts, after: Contacts, directory: DirectoryId, normalise: string -> string,
                         collaborators: seq<Identity>, author: AccountId, link: string -> Option<AccountId>,
                         newId: string -> nat, key: Key)
    requires AllUpserted(before, after, directory, normalise, collaborators, author, link, newId)
    ensures key in before ==> key in after
    ensures key in after && key !in before ==>
              key.directory == directory && exists i :: 0 <= i < |collaborators| && normalise(collaborators[i].email) == key.email
  {
    FirstWithIsFirst(normalise, collaborators, key.email);
    assert IsUpserted(before, after, key, Wanted(directory, normalise, collaborators, key), author, link, newId);
  }

  /** Adding the same people again, whoever does it, changes no row at all. */
  lemma AddingAgainChangesNothing(before: Contacts, after: Contacts, again: Contacts, directory: DirectoryId,
                                  normalise: string -> string, collaborators: seq<Identity>,
                                  author: AccountId, link: string -> Option<AccountId>, newId: string -> nat,
                                  author': AccountId, link': string -> Option<AccountId>, newId': string -> nat)
    requires AllUpserted(before, after, directory, normalise, collaborators, author, link, newId)
    requires AllUpserted(after, again, directory, normalise, collaborators, author', link', newId')
    ensures again == after
  {
    forall key ensures (key in again <==> key in after) && (key in after ==> again[key] == after[key]) {
      var wanted := Wanted(directory, normalise, collaborators, key);
      assert IsUpserted(before, after, key, wanted, author, link, newId);
      assert IsUpserted(after, again, key, wanted, author', link', newId');
    }
  }

  /** The outcome is fixed: two runs from one state differ in nothing. */
  lemma OutcomeIsUnique(before: Contacts, after: Contacts, other: Contacts, directory: DirectoryId,
                        normalise: string -> string, collaborators: seq<Identity>, author: AccountId,
                        link: string -> Option<AccountId>, newId: string -> nat)
    requires AllUpserted(before, after, directory, normalise, collaborators, author, link, newId)
    requires AllUpserted(before, other, directory, normalise, collaborators, author, link, newId)
    ensures after == other
  {
    forall key ensures (key in other <==> key in after) && (key in after ==> other[key] == after[key]) {
      var wanted := Wanted(directory, normalise, collaborators, key);
      assert IsUpserted(before, after, key, wanted, author, link, newId);
      assert IsUpserted(before, other, key, wanted, author, link, newId);
    }
  }

  /**
    The row of a collaborator, column by column: a new contact without tax id and phone, an archived
    one back under the new name with everything else it had, or the active one as it was.
   */
  predicate IsListed(before: Contacts, after: Contacts, key: Key, c: Identity, author: AccountId,
                     link: Option<AccountId>, id: nat) {
    && key in after && after[key].archivedAt.None?
    && (key !in before ==>
          && after[key].id == id && after[key].firstName == c.firstName && after[key].lastName == c.lastName
          && after[key].taxId.None? && after[key].phone.None? && after[key].linkedPersonalAccountId == link
          && after[key].createdBy == author && after[key].updatedBy == author)
    && (key in before && before[key].archivedAt.Some? ==>
          && after[key].id == before[key].id && after[key].firstName == c.firstName && after[key].lastName == c.lastName
          && after[key].taxId == before[key].taxId && after[key].phone == before[key].phone
          && after[key].linkedPersonalAccountId == before[key].linkedPersonalAccountId
          && after[key].createdBy == before[key].createdBy && after[key].updatedBy == author)
    && (key in before && before[key].archivedAt.None? ==> after[key] == before[key])
  }

  /** A collaborator who is the first with an email has the row of that email. */
  lemma FirstCollaboratorIsListed(before: Contacts, after: Contacts, directory: DirectoryId, normalise: string -> string,
                                  collaborators: seq<Identity>, author: AccountId, link: string -> Option<AccountId>,
                                  newId: string -> nat, i: nat)
    requires AllUpserted(before, after, directory, normalise, collaborators, author, link, newId)
    requires i < |collaborators| && IsFirst(normalise, collaborators, normalise(collaborators[i].email), i)
    ensures var email := normalise(collaborators[i].email);
            IsListed(before, after, Key(directory, email), collaborators[i], author, link(email), newId(email))
  {
    var key := Key(directory, normalise(collaborators[i].email));
    FirstWithIsFirst(normalise, collaborators, key.email);
    var j :| 0 <= j < |collaborators| && IsFirst(normalise, collaborators, key.email, j)
             && FirstWith(normalise, collaborators, key.email) == Some(collaborators[j].(email := key.email));
    assert i == j;
    assert IsUpserted(before, after, key, Wanted(directory, normalise, collaborators, key), author, link, newId);
  }

  // ------------------------------------------------------------------------------------------
  // The service.
  // ------------------------------------------------------------------------------------------

  class DirectoryCollaboratorsService {
    var directories: map<Owner, DirectoryId>
    var contacts: Contacts
    const normalise: string -> string

    constructor (normalise: string -> string)
      ensures this.normalise == normalise && directories == map[] && contacts == map[]
    {
      this.normalise := normalise;
      this.directories, this.contacts := map[], map[];
    }

    /** INSERT … ON CONFLICT DO NOTHING, then read. */
    method FindOrCreateDirectory(owner: Owner, newDirectory: DirectoryId) returns (directory: DirectoryId)
      modifies this`directories
      ensures owner in directories && directory == directories[owner]
      ensures directories == if owner in old(directories) then old(directories)
                             else old(directories)[owner := newDirectory]
    {
      if owner !in directories {
        directories := directories[owner := newDirectory];
      }
      directory := directories[owner];
    }

    /** The Map of the first pass: its keys in order, each with the first collaborator that has it. */
    method ByEmail(collaborators: seq<Identity>) returns (order: seq<string>, byEmail: map<string, Identity>)
      ensures forall i, j :: 0 <= i < j < |order| ==> order[i] != order[j]
      ensures forall e :: e in order <==> e in byEmail
      ensures forall e :: FirstWith(normalise, collaborators, e) == if e in byEmail then Some(byEmail[e]) else None
    {
      order, byEmail := [], map[];
      for k := 0 to |collaborators|
        invariant forall i, j :: 0 <= i < j < |order| ==> order[i] != order[j]
        invariant forall e :: e in order <==> e in byEmail
        invariant forall e :: FirstWith(normalise, collaborators[..k], e) == if e in byEmail then Some(byEmail[e]) else None
      {
        var email := normalise(collaborators[k].email);
        assert collaborators[..k + 1][..k] == collaborators[..k];
        if email !in byEmail {
          order := order + [email];
          byEmail := byEmail[email := collaborators[k].(email := email)];
        }
      }
      assert collaborators[..|collaborators|] == collaborators;
    }

    /** One round of the second pass: the insert that ignores a conflict, then the update of an archived row. */
    method Upsert(directory: DirectoryId, c: Identity, author: AccountId, link: string -> Option<AccountId>,
                  newId: string -> nat)
      modifies this`contacts
      ensures forall key :: IsUpserted(old(contacts), contacts, key, Only(directory, c, key), author, link, newId)
    {
      var key := Key(directory, c.email);
      if key !in contacts {
        contacts := contacts[key := Contact(newId(c.email), c.firstName, c.lastName, None, None, link(c.email),
                                            author, author, None)];
      }
      if contacts[key].archivedAt.Some? {
        contacts := contacts[key := contacts[key].(archivedAt := None, firstName := c.firstName, lastName := c.lastName,
                                                   updatedBy := author)];
      }
    }

    method AddManualCollaboratorsToDirectory(account: Account, collaborators: seq<Identity>, newDirectory: DirectoryId,
                                             link: string -> Option<AccountId>, newId: string -> nat)
      returns (done: bool)
      modifies this
      ensures collaborators == [] ==> done && contacts == old(contacts) && directories == old(directories)
      ensures collaborators != [] ==> (done <==> OwnerOf(account).Some?)
      ensures !done ==> contacts == old(contacts) && directories == old(directories)
      ensures done && collaborators != [] ==>
        var owner := OwnerOf(account).value;
        && directories == (if owner in old(directories) then old(directories) else old(directories)[owner := newDirectory])
        && AllUpserted(old(contacts), contacts, directories[owner], normalise, collaborators, account.id, link, newId)
      ensures collaborators != [] ==> (done <==> !account.isOrganization || account.organizationId.Some?)
      ensures done && collaborators != [] ==>
        var owner := if account.isOrganization then OfOrganization(account.organizationId.value) else OfPerson(account.id);
        && owner in directories
        && forall i :: 0 <= i < |collaborators| && IsFirst(normalise, collaborators, normalise(collaborators[i].email), i) ==>
             IsListed(old(contacts), contacts, Key(directories[owner], normalise(collaborators[i].email)), collaborators[i],
                      account.id, link(normalise(collaborators[i].email)), newId(normalise(collaborators[i].email)))
    {
      var order, byEmail := ByEmail(collaborators);
      if |order| == 0 {
        assert collaborators != [] ==> FirstWith(normalise, collaborators, normalise(collaborators[0].email)).Some? by {
          if collaborators != [] {
            FirstWithIsFirst(normalise, collaborators, normalise(collaborators[0].email));
          }
        }
        return true;
      }
      assert collaborators != [] by {
        assert order[0] in byEmail && FirstWith(normalise, collaborators, order[0]).Some?;
      }
      var owner := OwnerOf(account);
      if owner.None? {
        return false;
      }
      var directory := FindOrCreateDirectory(owner.value, newDirectory);
      for k := 0 to |order|
        invariant directories == if owner.value in old(directories) then old(directories)
                                 else old(directories)[owner.value := newDirectory]
        invariant forall key :: IsUpserted(old(contacts), contacts, key, DoneAt(directory, order[..k], byEmail, key),
                                           account.id, link, newId)
      {
        var email := order[k];
        label Before:
        assert byEmail[email].email == email by {
          FirstWithIsFirst(normalise, collaborators, email);
        }
        Upsert(directory, byEmail[email], account.id, link, newId);
        ghost var upTo := order[..k + 1];
        forall key ensures IsUpserted(old(contacts), contacts, key, DoneAt(directory, upTo, byEmail, key), account.id, link, newId) {
          assert IsUpserted(old(contacts), old@Before(contacts), key, DoneAt(directory, order[..k], byEmail, key),
                            account.id, link, newId);
          assert IsUpserted(old@Before(contacts), contacts, key,
                            Only(directory, byEmail[email], key), account.id, link, newId);
          assert key.email in upTo <==> key.email in order[..k] || key.email == email;
        }
      }
      assert order[..|order|] == order;
      forall key ensures IsUpserted(old(contacts), contacts, key, Wanted(directory, normalise, collaborators, key),
                                    account.id, link, newId) {
        assert DoneAt(directory, order, byEmail, key) == Wanted(directory, normalise, collaborators, key);
      }
      forall i | 0 <= i < |collaborators| && IsFirst(normalise, collaborators, normalise(collaborators[i].email), i)
        ensures IsListed(old(contacts), contacts, Key(directory, normalise(collaborators[i].email)), collaborators[i],
                         account.id, link(normalise(collaborators[i].email)), newId(normalise(collaborators[i].email)))
      {
        FirstCollaboratorIsListed(old(contacts), contacts, directory, normalise, collaborators, account.id, link, newId, i);
      }
      return true;
    }
  }

  function Only(directory: DirectoryId, c: Identity, key: Key): Option<Identity> {
    if key == Key(directory, c.email) then Some(c) else None
  }

  function DoneAt(directory: DirectoryId, emails: seq<string>, byEmail: map<string, Identity>, key: Key): Option<Identity> {
    if key.directory == directory && key.email in emails && key.email in byEmail then Some(byEmail[key.email]) else None
  }
}
