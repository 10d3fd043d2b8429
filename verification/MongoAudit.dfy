/**
  The per-document audit trail kept in Mongo (src/audit/audit.service.ts) and what its hashes cover.

  generateRegistryHash (src/common/hash/hash.service.ts) digests JSON.stringify(content, keys), where
  keys are the sorted property names of the outermost object. A replacer that is an array selects the
  properties of every nested object as well. The JSON text stands for the value it prints; the digest
  of a value is uninterpreted.
 */
module MongoAudit {
  import opened Wrappers

  /** Every property name that occurs in a record or inside one of its parts. */
  datatype Key =
    // AuditPayload
    | DocumentId | Operation | IpAddress | Users | VerificationCodeId | SignedAt | GeolocationKey | SignatureType
    | SigningAuthorization | ActorKey | ResultKey | EvidenceKey
    // added by create
    | ChainIndex | IntegrityHash | PreviousChainHash
    // users
    | UserId | ActionKey
    // geolocation
    | Latitude | Longitude | Accuracy
    // actor
    | TypeKey | AuthMechanism | ApiKeyId | InvitationId | CollaboratorId | AccessChannel | UserAgent
    // evidence
    | DocumentHash | CertificateNumber | OcspStatus | IdentityVerificationId | IdentityProvider | ErrorCode

  datatype AuditAction =
    | DOCUMENT_CREATED | DOCUMENT_APPROVED | DOCUMENT_APPROVAL_REJECTED | DOCUMENT_SENT_TO_SIGN | DOCUMENT_SIGNED
    | DOCUMENT_CANCELLATION_REQUESTED | DOCUMENT_CANCELLED | DOCUMENT_REJECTED | SIGNING_INVITATION_OTP_SENT
    | SIGNING_INVITATION_OTP_VERIFIED | SIGNING_INVITATION_ISSUED | SIGNING_LAUNCH_ISSUED | SIGNING_STARTED
    | SIGNING_FAILED | IDENTITY_VERIFICATION_STARTED | IDENTITY_VERIFICATION_CHECKED | CERTIFICATE_VALIDATION_FAILED

  /** A JSON value; `Name` is an enum member, printed as its name. */
  datatype Value =
    | Text(text: string)
    | Name(action: AuditAction)
    | Number(number: real)
    | List(items: seq<Value>)
    | Object(fields: map<Key, Value>)

  type Digest = Value -> string

  const HASH_LENGTH := 64

  /** The previousChainHash of the first record of a document. */
  const NO_PREVIOUS := "0"

  ghost predicate HasFixedLength(digest: Digest) {
    forall v :: |digest(v)| == HASH_LENGTH
  }

  /** JSON.stringify with an array of property names as its replacer. */
  function Printed(keys: set<Key>, v: Value): Value {
    match v
    case Object(fields) => Object(map k | k in fields && k in keys :: Printed(keys, fields[k]))
    case List(items) => List(seq(|items|, i requires 0 <= i < |items| => Printed(keys, items[i])))
    case _ => v
  }

  function RegistryText(content: map<Key, Value>): Value {
    Printed(content.Keys, Object(content))
  }

  // ------------------------------------------------------------------------------------------
  // Records.
  // ------------------------------------------------------------------------------------------

  datatype UserAction = UserAction(userId: string, action: AuditAction)
  datatype Geolocation = Geolocation(latitude: real, longitude: real, accuracy: Option<real>)
  /** The properties the actor or the evidence has, all of them strings. */
  type Strings = map<Key, string>

  predicate IsActor(s: Strings) {
    forall k :: k in s ==>
      k.TypeKey? || k.AuthMechanism? || k.ApiKeyId? || k.InvitationId? || k.CollaboratorId? || k.AccessChannel? || k.UserAgent?
  }

  predicate IsEvidence(s: Strings) {
    forall k :: k in s ==>
      || k.DocumentHash? || k.CertificateNumber? || k.OcspStatus? || k.IdentityVerificationId? || k.IdentityProvider?
      || k.ErrorCode?
  }

  datatype Payload = Payload(
    documentId: string, operation: AuditAction, ipAddress: string, users: Option<seq<UserAction>>,
    verificationCodeId: Option<string>, signedAt: Option<string>, geolocation: Option<Geolocation>,
    signatureType: Option<string>, signingAuthorization: Option<string>, actor: Option<Strings>,
    result: Option<string>, evidence: Option<Strings>)

  predicate Typed(p: Payload) {
    (p.actor.Some? ==> IsActor(p.actor.value)) && (p.evidence.Some? ==> IsEvidence(p.evidence.value))
  }

  datatype Record = Record(payload: Payload, chainIndex: nat, integrityHash: string, chainHash: string)

  /** The hashes create adds to the record before it computes the chainHash. */
  datatype Seal = Seal(integrityHash: string, previousChainHash: string)

  function OptionalText(s: Option<string>): Option<Value> {
    if s.Some? then Some(Text(s.value)) else None
  }

  function OfStrings(s: Strings): Value {
    Object(map k | k in s :: Text(s[k]))
  }

  function OfUser(u: UserAction): Value {
    Object(map[UserId := Text(u.userId), ActionKey := Name(u.action)])
  }

  function OfGeolocation(g: Geolocation): Value {
    var required := map[Latitude := Number(g.latitude), Longitude := Number(g.longitude)];
    Object(if g.accuracy.Some? then required[Accuracy := Number(g.accuracy.value)] else required)
  }

  function OfUsers(users: seq<UserAction>): Value {
    List(seq(|users|, i requires 0 <= i < |users| => OfUser(users[i])))
  }

  /**
    The outermost properties. One that is undefined is never printed, and since no nested property
    shares its name, leaving it out of `keys` changes nothing.
   */
  function Field(p: Payload, index: nat, seal: Option<Seal>, k: Key): Option<Value> {
    match k
    case DocumentId => Some(Text(p.documentId))
    case Operation => Some(Name(p.operation))
    case IpAddress => Some(Text(p.ipAddress))
    case Users => if p.users.Some? then Some(OfUsers(p.users.value)) else None
    case VerificationCodeId => OptionalText(p.verificationCodeId)
    case SignedAt => OptionalText(p.signedAt)
    case GeolocationKey => if p.geolocation.Some? then Some(OfGeolocation(p.geolocation.value)) else None
    case SignatureType => OptionalText(p.signatureType)
    case SigningAuthorization => OptionalText(p.signingAuthorization)
    case ActorKey => if p.actor.Some? then Some(OfStrings(p.actor.value)) else None
    case ResultKey => OptionalText(p.result)
    case EvidenceKey => if p.evidence.Some? then Some(OfStrings(p.evidence.value)) else None
    case ChainIndex => Some(Number(index as real))
    case IntegrityHash => if seal.Some? then Some(Text(seal.value.integrityHash)) else None
    case PreviousChainHash => if seal.Some? then Some(Text(seal.value.previousChainHash)) else None
    case _ => None
  }

  predicate IsOutermost(k: Key) {
    || k.DocumentId? || k.Operation? || k.IpAddress? || k.Users? || k.VerificationCodeId? || k.SignedAt? || k.GeolocationKey?
    || k.SignatureType? || k.SigningAuthorization? || k.ActorKey? || k.ResultKey? || k.EvidenceKey?
    || k.ChainIndex? || k.IntegrityHash? || k.PreviousChainHash?
  }

  predicate AreOutermost(keys: set<Key>) {
    forall k :: k in keys ==> IsOutermost(k)
  }

  /** recordData, or chainContent when there is a seal. */
  function Content(p: Payload, index: nat, seal: Option<Seal>): map<Key, Value> {
    map k: Key | IsOutermost(k) && Field(p, index, seal, k).Some? :: Field(p, index, seal, k).value
  }

  /** Property `k` has the value `v`, or is not there. */
  predicate Shows(content: map<Key, Value>, k: Key, v: Option<Value>) {
    (k in content <==> v.Some?) && (v.Some? && k in content ==> content[k] == v.value)
  }

  lemma ContentAt(p: Payload, index: nat, seal: Option<Seal>, k: Key)
    ensures Shows(Content(p, index, seal), k, if IsOutermost(k) then Field(p, index, seal, k) else None)
  {
  }

  /** What create passes to the hash, property by property: what the caller gave ... */
  lemma ContentIsThePayload(content: map<Key, Value>, p: Payload, index: nat, seal: Option<Seal>)
    requires content == Content(p, index, seal)
    ensures Shows(content, DocumentId, Some(Text(p.documentId))) && Shows(content, Operation, Some(Name(p.operation)))
    ensures Shows(content, IpAddress, Some(Text(p.ipAddress))) && Shows(content, SignedAt, OptionalText(p.signedAt))
    ensures Shows(content, VerificationCodeId, OptionalText(p.verificationCodeId))
    ensures Shows(content, SignatureType, OptionalText(p.signatureType))
    ensures Shows(content, SigningAuthorization, OptionalText(p.signingAuthorization))
    ensures Shows(content, ResultKey, OptionalText(p.result))
    ensures (Users in content <==> p.users.Some?) && (GeolocationKey in content <==> p.geolocation.Some?)
    ensures (ActorKey in content <==> p.actor.Some?) && (EvidenceKey in content <==> p.evidence.Some?)
  {
    forall k ensures Shows(content, k, if IsOutermost(k) then Field(p, index, seal, k) else None) {
      ContentAt(p, index, seal, k);
    }
  }

  /** ... its place in the trail, the two hashes once they are known, and nothing else. */
  lemma ContentIsChained(content: map<Key, Value>, p: Payload, index: nat, seal: Option<Seal>)
    requires content == Content(p, index, seal)
    ensures Shows(content, ChainIndex, Some(Number(index as real)))
    ensures Shows(content, IntegrityHash, if seal.Some? then Some(Text(seal.value.integrityHash)) else None)
    ensures Shows(content, PreviousChainHash, if seal.Some? then Some(Text(seal.value.previousChainHash)) else None)
    ensures forall k :: k in content ==> IsOutermost(k)
  {
    forall k ensures Shows(content, k, if IsOutermost(k) then Field(p, index, seal, k) else None) {
      ContentAt(p, index, seal, k);
    }
  }

  function IntegrityHashOf(digest: Digest, p: Payload, index: nat): string {
    digest(RegistryText(Content(p, index, None)))
  }

  function ChainText(p: Payload, index: nat, integrityHash: string, previousChainHash: string): Value {
    RegistryText(Content(p, index, Some(Seal(integrityHash, previousChainHash))))
  }

  // ------------------------------------------------------------------------------------------
  // What a registry hash covers.
  // ------------------------------------------------------------------------------------------

  /** What is left of a payload: of every nested part, only whether it is there and how many users it names. */
  datatype Summary = Summary(
    documentId: string, operation: AuditAction, ipAddress: string, users: Option<nat>,
    verificationCodeId: Option<string>, signedAt: Option<string>, hasGeolocation: bool,
    signatureType: Option<string>, signingAuthorization: Option<string>, hasActor: bool,
    result: Option<string>, hasEvidence: bool)

  function Summarised(p: Payload): Summary {
    Summary(p.documentId, p.operation, p.ipAddress, if p.users.Some? then Some(|p.users.value|) else None,
            p.verificationCodeId, p.signedAt, p.geolocation.Some?, p.signatureType, p.signingAuthorization,
            p.actor.Some?, p.result, p.evidence.Some?)
  }

  const NOTHING := Object(map[])

  function Nothings(n: nat): Value {
    List(seq(n, i => NOTHING))
  }

  /** What is printed of property `k`. */
  function PrintedField(p: Payload, index: nat, seal: Option<Seal>, k: Key): Option<Value> {
    match k
    case Users => if p.users.Some? then Some(Nothings(|p.users.value|)) else None
    case GeolocationKey => if p.geolocation.Some? then Some(NOTHING) else None
    case ActorKey => if p.actor.Some? then Some(NOTHING) else None
    case EvidenceKey => if p.evidence.Some? then Some(NOTHING) else None
    case _ => Field(p, index, seal, k)
  }

  lemma NestedIsDropped(keys: set<Key>, v: Value)
    requires AreOutermost(keys) && v.Object? && forall k :: k in v.fields ==> !IsOutermost(k)
    ensures Printed(keys, v) == NOTHING
  {
    assert Printed(keys, v).fields == map[];
  }

  lemma StringsAreNested(s: Strings)
    requires IsActor(s) || IsEvidence(s)
    ensures forall k :: k in OfStrings(s).fields ==> !IsOutermost(k)
  {
  }

  lemma UsersAreDropped(users: seq<UserAction>, keys: set<Key>)
    requires AreOutermost(keys)
    ensures Printed(keys, OfUsers(users)) == Nothings(|users|)
  {
    forall i | 0 <= i < |users| ensures Printed(keys, OfUser(users[i])) == NOTHING {
      NestedIsDropped(keys, OfUser(users[i]));
    }
  }

  /** No nested property has the name of an outermost one, so nothing inside the parts is printed. */
  lemma PartsAreDropped(p: Payload, index: nat, seal: Option<Seal>, keys: set<Key>, k: Key)
    requires Typed(p) && AreOutermost(keys) && Field(p, index, seal, k).Some?
    ensures PrintedField(p, index, seal, k) == Some(Printed(keys, Field(p, index, seal, k).value))
  {
    if k == Users {
      UsersAreDropped(p.users.value, keys);
    } else if k == GeolocationKey {
      NestedIsDropped(keys, OfGeolocation(p.geolocation.value));
    } else if k == ActorKey {
      StringsAreNested(p.actor.value);
      NestedIsDropped(keys, OfStrings(p.actor.value));
    } else if k == EvidenceKey {
      StringsAreNested(p.evidence.value);
      NestedIsDropped(keys, OfStrings(p.evidence.value));
    } else {
      ScalarsAreKept(p, index, seal, keys, k);
    }
  }

  lemma ScalarsAreKept(p: Payload, index: nat, seal: Option<Seal>, keys: set<Key>, k: Key)
    requires k != Users && k != GeolocationKey && k != ActorKey && k != EvidenceKey
    requires Field(p, index, seal, k).Some?
    ensures Printed(keys, Field(p, index, seal, k).value) == Field(p, index, seal, k).value
  {
  }

  lemma TextHasField(p: Payload, index: nat, seal: Option<Seal>, k: Key)
    requires Typed(p)
    ensures var text := RegistryText(Content(p, index, seal));
            && text.Object? && (k in text.fields <==> PrintedField(p, index, seal, k).Some?)
            && (k in text.fields ==> PrintedField(p, index, seal, k) == Some(text.fields[k]))
  {
    var content := Content(p, index, seal);
    if Field(p, index, seal, k).Some? {
      assert k in content;
      PartsAreDropped(p, index, seal, content.Keys, k);
    }
  }

  predicate SamePrint(p: Payload, i: nat, s: Option<Seal>, q: Payload, j: nat, u: Option<Seal>, k: Key) {
    PrintedField(p, i, s, k) == PrintedField(q, j, u, k)
  }

  ghost predicate AllPrintSame(p: Payload, i: nat, s: Option<Seal>, q: Payload, j: nat, u: Option<Seal>) {
    forall k :: SamePrint(p, i, s, q, j, u, k)
  }

  lemma RequiredTextsAgree(p: Payload, i: nat, s: Option<Seal>, q: Payload, j: nat, u: Option<Seal>)
    requires AllPrintSame(p, i, s, q, j, u)
    ensures p.documentId == q.documentId && p.operation == q.operation && p.ipAddress == q.ipAddress && i == j
  {
    assert SamePrint(p, i, s, q, j, u, DocumentId) && SamePrint(p, i, s, q, j, u, Operation);
    assert SamePrint(p, i, s, q, j, u, IpAddress) && SamePrint(p, i, s, q, j, u, ChainIndex);
  }

  lemma OptionalTextsAgree(p: Payload, i: nat, s: Option<Seal>, q: Payload, j: nat, u: Option<Seal>)
    requires AllPrintSame(p, i, s, q, j, u)
    ensures p.verificationCodeId == q.verificationCodeId && p.signedAt == q.signedAt && p.result == q.result
    ensures p.signatureType == q.signatureType && p.signingAuthorization == q.signingAuthorization
  {
    assert SamePrint(p, i, s, q, j, u, VerificationCodeId) && SamePrint(p, i, s, q, j, u, SignedAt);
    assert SamePrint(p, i, s, q, j, u, SignatureType) && SamePrint(p, i, s, q, j, u, SigningAuthorization);
    assert SamePrint(p, i, s, q, j, u, ResultKey);
  }

  lemma PartsAgree(p: Payload, i: nat, s: Option<Seal>, q: Payload, j: nat, u: Option<Seal>)
    requires AllPrintSame(p, i, s, q, j, u)
    ensures p.geolocation.Some? == q.geolocation.Some? && p.actor.Some? == q.actor.Some?
    ensures p.evidence.Some? == q.evidence.Some? && p.users.Some? == q.users.Some?
    ensures p.users.Some? ==> |p.users.value| == |q.users.value|
  {
    assert SamePrint(p, i, s, q, j, u, GeolocationKey) && SamePrint(p, i, s, q, j, u, ActorKey);
    assert SamePrint(p, i, s, q, j, u, EvidenceKey) && SamePrint(p, i, s, q, j, u, Users);
    if p.users.Some? {
      assert |Nothings(|p.users.value|).items| == |Nothings(|q.users.value|).items|;
    }
  }

  lemma SealsAgree(p: Payload, i: nat, s: Option<Seal>, q: Payload, j: nat, u: Option<Seal>)
    requires AllPrintSame(p, i, s, q, j, u)
    ensures s == u
  {
    assert SamePrint(p, i, s, q, j, u, IntegrityHash) && SamePrint(p, i, s, q, j, u, PreviousChainHash);
  }

  lemma FieldFromSummary(p: Payload, q: Payload, i: nat, s: Option<Seal>, k: Key)
    requires Summarised(p) == Summarised(q)
    ensures SamePrint(p, i, s, q, i, s, k)
  {
  }

  /**
    What a registry hash covers, exactly: two records print the same text if and only if their
    summaries, indices and seals are the same. Everything inside the parts is left out.
   */
  lemma SameTextIff(p: Payload, i: nat, s: Option<Seal>, q: Payload, j: nat, u: Option<Seal>)
    requires Typed(p) && Typed(q)
    ensures RegistryText(Content(p, i, s)) == RegistryText(Content(q, j, u))
       <==> Summarised(p) == Summarised(q) && i == j && s == u
  {
    var a, b := RegistryText(Content(p, i, s)), RegistryText(Content(q, j, u));
    if a == b {
      forall k ensures SamePrint(p, i, s, q, j, u, k) {
        TextHasField(p, i, s, k);
        TextHasField(q, j, u, k);
      }
      RequiredTextsAgree(p, i, s, q, j, u);
      OptionalTextsAgree(p, i, s, q, j, u);
      PartsAgree(p, i, s, q, j, u);
      SealsAgree(p, i, s, q, j, u);
    }
    if Summarised(p) == Summarised(q) && i == j && s == u {
      forall k ensures (k in a.fields <==> k in b.fields) && (k in a.fields ==> a.fields[k] == b.fields[k]) {
        FieldFromSummary(p, q, i, s, k);
        TextHasField(p, i, s, k);
        TextHasField(q, j, u, k);
      }
      assert a.fields == b.fields;
    }
  }

  // ------------------------------------------------------------------------------------------
  // The trail of one document.
  // ------------------------------------------------------------------------------------------

  /** Oldest record first. */
  datatype Trail = Start | Then(before: Trail, last: Record)

  function Length(t: Trail): nat {
    if t.Start? then 0 else Length(t.before) + 1
  }

  function HeadHash(t: Trail): string {
    if t.Start? then NO_PREVIOUS else t.last.chainHash
  }

  predicate IsSealed(digest: Digest, r: Record, index: nat, previousChainHash: string) {
    && Typed(r.payload) && r.chainIndex == index
    && r.integrityHash == IntegrityHashOf(digest, r.payload, index)
    && r.chainHash == digest(ChainText(r.payload, index, r.integrityHash, previousChainHash))
  }

  /** Numbered 1, 2, … without gaps, every record sealed and linked to the one before. */
  predicate Valid(digest: Digest, t: Trail) {
    t.Start? || (Valid(digest, t.before) && IsSealed(digest, t.last, Length(t.before) + 1, HeadHash(t.before)))
  }

  function Summaries(t: Trail): seq<Summary> {
    if t.Start? then [] else Summaries(t.before) + [Summarised(t.last.payload)]
  }

  /** Two values with one digest. */
  datatype Collision = Collision(a: Value, b: Value)

  predicate IsCollision(digest: Digest, c: Collision) {
    c.a != c.b && digest(c.a) == digest(c.b)
  }

  function LastText(t: Trail): Value
    requires t.Then?
  {
    ChainText(t.last.payload, t.last.chainIndex, t.last.integrityHash, HeadHash(t.before))
  }

  /** Walks both trails back from their ends to the newest place where they part. */
  function FindCollision(t: Trail, u: Trail): Collision
    requires t.Then? && u.Then?
  {
    if LastText(t) != LastText(u) || t.before.Start? || u.before.Start? then Collision(LastText(t), LastText(u))
    else FindCollision(t.before, u.before)
  }

  /** The last chainHash commits to the summaries of the whole trail, or the digest is broken. */
  lemma {:induction false} HeadHashCommitsToSummaries(digest: Digest, t: Trail, u: Trail)
    requires HasFixedLength(digest) && Valid(digest, t) && Valid(digest, u) && HeadHash(t) == HeadHash(u)
    ensures t.Start? <==> u.Start?
    ensures t.Then? && Summaries(t) != Summaries(u) ==> IsCollision(digest, FindCollision(t, u))
    decreases t
  {
    HeadLength(digest, t);
    HeadLength(digest, u);
    if t.Then? && LastText(t) == LastText(u) {
      SameTextIff(t.last.payload, t.last.chainIndex, Some(Seal(t.last.integrityHash, HeadHash(t.before))),
                  u.last.payload, u.last.chainIndex, Some(Seal(u.last.integrityHash, HeadHash(u.before))));
      HeadHashCommitsToSummaries(digest, t.before, u.before);
    }
  }

  lemma HeadLength(digest: Digest, t: Trail)
    requires HasFixedLength(digest) && Valid(digest, t)
    ensures t.Start? <==> |HeadHash(t)| != HASH_LENGTH
  {
  }

  /** It commits to nothing else: trails with the same summaries carry the same hashes throughout. */
  lemma {:induction false} SummariesDetermineHashes(digest: Digest, t: Trail, u: Trail)
    requires Valid(digest, t) && Valid(digest, u) && Summaries(t) == Summaries(u)
    ensures Length(t) == Length(u) && HeadHash(t) == HeadHash(u)
    ensures t.Then? ==> u.Then? && t.last.integrityHash == u.last.integrityHash
    decreases t
  {
    assert |Summaries(t)| == 0 <==> t.Start?;
    assert |Summaries(u)| == 0 <==> u.Start?;
    if t.Then? {
      var n := |Summaries(t)| - 1;
      assert Summaries(t)[..n] == Summaries(t.before) && Summaries(u)[..n] == Summaries(u.before);
      assert Summaries(t)[n] == Summarised(t.last.payload) && Summaries(u)[n] == Summarised(u.last.payload);
      SummariesDetermineHashes(digest, t.before, u.before);
      var p, q, i := t.last.payload, u.last.payload, t.last.chainIndex;
      SameTextIff(p, i, None, q, i, None);
      var seal := Some(Seal(t.last.integrityHash, HeadHash(t.before)));
      SameTextIff(p, i, seal, q, i, seal);
    }
  }

  /** The parts of an accepted record can be exchanged at will: the trail stays valid, with the same hashes. */
  lemma PartsCanBeExchanged(digest: Digest, t: Trail, q: Payload)
    requires t.Then? && Valid(digest, t) && Typed(q) && Summarised(q) == Summarised(t.last.payload)
    ensures Valid(digest, Then(t.before, t.last.(payload := q)))
  {
    var p, i := t.last.payload, t.last.chainIndex;
    SameTextIff(p, i, None, q, i, None);
    var seal := Some(Seal(t.last.integrityHash, HeadHash(t.before)));
    SameTextIff(p, i, seal, q, i, seal);
  }

  /** Two signatures of one document that differ in where they were made print the same text. */
  lemma PlaceIsNotCovered() returns (here: Payload, there: Payload)
    ensures Typed(here) && Typed(there) && here.geolocation.Some? && there.geolocation.Some?
    ensures here.geolocation != there.geolocation
    ensures forall i, s :: RegistryText(Content(here, i, s)) == RegistryText(Content(there, i, s))
  {
    here := Payload("d", DOCUMENT_SIGNED, "ip", None, None, Some("t"), Some(Geolocation(19.43, -99.13, None)),
                    None, None, None, None, None);
    there := here.(geolocation := Some(Geolocation(48.85, 2.35, Some(5.0))));
    forall i, s ensures RegistryText(Content(here, i, s)) == RegistryText(Content(there, i, s)) {
      SameTextIff(here, i, s, there, i, s);
    }
  }

  function At(t: Trail, k: nat): Option<Record> {
    if t.Start? then None else if k == Length(t) then Some(t.last) else At(t.before, k)
  }

  /** The indices of a trail are 1 … n, each used once. */
  lemma {:induction false} IndicesHaveNoGaps(digest: Digest, t: Trail, k: nat)
    requires Valid(digest, t)
    ensures At(t, k).Some? <==> 1 <= k <= Length(t)
    ensures At(t, k).Some? ==> At(t, k).value.chainIndex == k
  {
    if t.Then? && k != Length(t) {
      IndicesHaveNoGaps(digest, t.before, k);
    }
  }

  // ------------------------------------------------------------------------------------------
  // The collection and the calls.
  // ------------------------------------------------------------------------------------------

  /** The records of one document, in the order of their insertion. */
  function TrailOf(collection: seq<Record>, d: string): Trail {
    if collection == [] then Start
    else
      var n := |collection| - 1;
      if collection[n].payload.documentId == d then Then(TrailOf(collection[..n], d), collection[n])
      else TrailOf(collection[..n], d)
  }

  ghost predicate AllValid(digest: Digest, collection: seq<Record>) {
    forall d :: Valid(digest, TrailOf(collection, d))
  }

  /** A legal answer to findOne({ documentId }).sort({ chainIndex: -1 }). */
  ghost predicate IsNewest(collection: seq<Record>, d: string, previous: Option<Record>) {
    match previous
    case None => forall r :: r in collection ==> r.payload.documentId != d
    case Some(p) =>
      && p in collection && p.payload.documentId == d
      && forall r :: r in collection && r.payload.documentId == d ==> r.chainIndex <= p.chainIndex
  }

  lemma {:induction false} TrailHasRecord(digest: Digest, collection: seq<Record>, d: string, r: Record)
    requires Valid(digest, TrailOf(collection, d)) && r in collection && r.payload.documentId == d
    ensures r.chainIndex <= Length(TrailOf(collection, d)) && TrailOf(collection, d).Then?
    ensures r.chainIndex == Length(TrailOf(collection, d)) ==> r == TrailOf(collection, d).last
  {
    var n := |collection| - 1;
    assert collection == collection[..n] + [collection[n]];
    if r in collection[..n] {
      TrailHasRecord(digest, collection[..n], d, r);
    }
  }

  lemma {:induction false} TrailIsInCollection(collection: seq<Record>, d: string)
    ensures TrailOf(collection, d).Then? ==>
              TrailOf(collection, d).last in collection && TrailOf(collection, d).last.payload.documentId == d
  {
    if collection != [] {
      TrailIsInCollection(collection[..|collection| - 1], d);
    }
  }

  /** Whatever order the database stores the records in, it finds the end of the trail. */
  lemma NewestIsEndOfTrail(digest: Digest, collection: seq<Record>, d: string, previous: Option<Record>)
    requires Valid(digest, TrailOf(collection, d)) && IsNewest(collection, d, previous)
    ensures previous == match TrailOf(collection, d) case Start => None case Then(_, last) => Some(last)
  {
    TrailIsInCollection(collection, d);
    if previous.Some? {
      TrailHasRecord(digest, collection, d, previous.value);
    }
  }

  /** The operations that cannot be recorded without saying who acted. */
  const ACTOR_OPERATIONS: set<AuditAction> :=
    {SIGNING_INVITATION_OTP_SENT, SIGNING_INVITATION_OTP_VERIFIED, SIGNING_INVITATION_ISSUED, SIGNING_LAUNCH_ISSUED,
     SIGNING_STARTED, SIGNING_FAILED, IDENTITY_VERIFICATION_STARTED, IDENTITY_VERIFICATION_CHECKED,
     CERTIFICATE_VALIDATION_FAILED}

  /** validatePayload: the fields required by the operation. */
  predicate HasRequiredFields(p: Payload) {
    match p.operation
    case DOCUMENT_SIGNED => p.signedAt.Some?
    case SIGNING_INVITATION_OTP_SENT | SIGNING_INVITATION_OTP_VERIFIED | SIGNING_INVITATION_ISSUED
       | SIGNING_LAUNCH_ISSUED | SIGNING_STARTED | SIGNING_FAILED | IDENTITY_VERIFICATION_STARTED
       | IDENTITY_VERIFICATION_CHECKED | CERTIFICATE_VALIDATION_FAILED => p.actor.Some?
    case _ => true
  }

  function NextRecord(digest: Digest, t: Trail, p: Payload): Record {
    var index := Length(t) + 1;
    var integrityHash := IntegrityHashOf(digest, p, index);
    Record(p, index, integrityHash, digest(ChainText(p, index, integrityHash, HeadHash(t))))
  }

  /** `fails` says that the read, a hash, the cipher or the insert throws. */
  datatype Call = Call(payload: Payload, fails: bool)

  predicate Records(c: Call) {
    HasRequiredFields(c.payload) && !c.fails
  }

  /** What one call leaves of the collection. */
  function After(digest: Digest, collection: seq<Record>, c: Call): seq<Record> {
    if Records(c) then collection + [NextRecord(digest, TrailOf(collection, c.payload.documentId), c.payload)]
    else collection
  }

  lemma TrailAppend(collection: seq<Record>, r: Record, d: string)
    ensures TrailOf(collection + [r], d) ==
            if r.payload.documentId == d then Then(TrailOf(collection, d), r) else TrailOf(collection, d)
  {
    assert (collection + [r])[..|collection|] == collection;
  }

  lemma AfterKeepsValid(digest: Digest, collection: seq<Record>, c: Call)
    requires AllValid(digest, collection) && Typed(c.payload)
    ensures AllValid(digest, After(digest, collection, c))
  {
    if Records(c) {
      var r := NextRecord(digest, TrailOf(collection, c.payload.documentId), c.payload);
      forall d ensures Valid(digest, TrailOf(collection + [r], d)) {
        TrailAppend(collection, r, d);
      }
    }
  }

  function Run(digest: Digest, calls: seq<Call>): seq<Record> {
    if calls == [] then [] else After(digest, Run(digest, calls[..|calls| - 1]), calls[|calls| - 1])
  }

  function Payloads(t: Trail): seq<Payload> {
    if t.Start? then [] else Payloads(t.before) + [t.last.payload]
  }

  /** The payloads about `d` whose calls went through, in order. */
  function Recorded(calls: seq<Call>, d: string): seq<Payload> {
    if calls == [] then []
    else
      var rest, last := Recorded(calls[..|calls| - 1], d), calls[|calls| - 1];
      if Records(last) && last.payload.documentId == d then rest + [last.payload] else rest
  }

  /**
    Over every sequential run of calls, whichever of them fail, each document has a valid trail that
    holds exactly what went through, in order: a failed call leaves neither a record nor a gap.
   */
  lemma {:induction false} RunsLeaveValidTrails(digest: Digest, calls: seq<Call>, d: string)
    requires forall c :: c in calls ==> Typed(c.payload)
    ensures AllValid(digest, Run(digest, calls))
    ensures Payloads(TrailOf(Run(digest, calls), d)) == Recorded(calls, d)
  {
    if calls != [] {
      var rest, last := calls[..|calls| - 1], calls[|calls| - 1];
      RunsLeaveValidTrails(digest, rest, d);
      var collection := Run(digest, rest);
      AfterKeepsValid(digest, collection, last);
      TrailAppend(collection, NextRecord(digest, TrailOf(collection, last.payload.documentId), last.payload), d);
    }
  }

  class AuditService {
    var collection: seq<Record>
    const digest: Digest

    constructor (digest: Digest)
      ensures this.digest == digest && collection == [] && InOrder()
    {
      this.digest := digest;
      this.collection := [];
    }

    ghost predicate InOrder()
      reads this
    {
      AllValid(digest, collection)
    }

    /** An error is logged and swallowed: the caller never learns. */
    method Create(payload: Payload, previous: Option<Record>, fails: bool)
      requires InOrder() && Typed(payload) && IsNewest(collection, payload.documentId, previous)
      modifies this
      ensures InOrder()
      ensures collection == After(digest, old(collection), Call(payload, fails))
      // Exactly what is recorded, and in what place of its trail.
      ensures collection != old(collection) <==>
        && !fails && (payload.operation == DOCUMENT_SIGNED ==> payload.signedAt.Some?)
        && (payload.operation in ACTOR_OPERATIONS ==> payload.actor.Some?)
      ensures collection != old(collection) ==>
        && |collection| == |old(collection)| + 1 && collection[..|old(collection)|] == old(collection)
        && collection[|old(collection)|].payload == payload
        && collection[|old(collection)|].chainIndex == if previous.Some? then previous.value.chainIndex + 1 else 1
    {
      AfterKeepsValid(digest, collection, Call(payload, fails));
      if !HasRequiredFields(payload) || fails {
        return;
      }
      NewestIsEndOfTrail(digest, collection, payload.documentId, previous);
      var chainIndex, previousChainHash := 1, NO_PREVIOUS;
      if previous.Some? {
        chainIndex, previousChainHash := previous.value.chainIndex + 1, previous.value.chainHash;
      }
      var recordData := Content(payload, chainIndex, None);
      var integrityHash := digest(RegistryText(recordData));
      var chainContent := Content(payload, chainIndex, Some(Seal(integrityHash, previousChainHash)));
      var chainHash := digest(RegistryText(chainContent));
      collection := collection + [Record(payload, chainIndex, integrityHash, chainHash)];
    }
  }
}
