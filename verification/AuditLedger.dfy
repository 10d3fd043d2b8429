/**
  The global audit ledger (src/audit-chain/audit-chain.service.ts) and what its head hash commits to.

  A row's actualHash is the digest of documentId + chipher + chainHash + auditType + timestamp,
  concatenated without separators. The digest itself (SHA-256, in hexadecimal) is uninterpreted.
 */
module AuditLedger {
  import opened Wrappers
  import opened Collections

  type Digest = string -> string

  const HASH_LENGTH := 64
  const UUID_LENGTH := 36
  const ISO_LENGTH := 24

  /** The chainHash of the first row of the system. */
  const GENESIS_HASH: string := Repeat('0', HASH_LENGTH)

  function Repeat(c: char, n: nat): (s: string)
    ensures |s| == n
    ensures forall i :: 0 <= i < n ==> s[i] == c
  {
    if n == 0 then [] else Repeat(c, n - 1) + [c]
  }

  ghost predicate HasFixedLength(digest: Digest) {
    forall s :: |digest(s)| == HASH_LENGTH
  }

  datatype AuditType =
    | Created | Pending | AprovedToSign | SignaturesPartial | SignaturesCompleted | Rejected

  function Text(t: AuditType): string {
    match t
    case Created => "created"
    case Pending => "pending"
    case AprovedToSign => "aproved_to_sign"
    case SignaturesPartial => "signatures_partial"
    case SignaturesCompleted => "signatures_completed"
    case Rejected => "rejected"
  }

  /** What is hashed, besides the link: the encrypted event and the columns in clear. */
  datatype Event = Event(documentId: string, chipher: string, auditType: AuditType, timestamp: string)

  /** `documentId` becomes NULL when the document is deleted (ON DELETE SET NULL). */
  datatype Row = Row(id: nat, documentId: Option<string>, chipher: string, actualHash: string, chainHash: string,
                     auditType: AuditType, timestamp: string)

  function Preimage(e: Event, chainHash: string): string {
    e.documentId + e.chipher + chainHash + Text(e.auditType) + e.timestamp
  }

  predicate WellFormedEvent(e: Event) {
    |e.documentId| == UUID_LENGTH && |e.timestamp| == ISO_LENGTH
  }

  function HeadHash(rows: seq<Row>): string {
    if rows == [] then GENESIS_HASH else rows[|rows| - 1].actualHash
  }

  function EventOf(r: Row): Event
    requires r.documentId.Some?
  {
    Event(r.documentId.value, r.chipher, r.auditType, r.timestamp)
  }

  /** Linked from the genesis hash on, whatever happened to the documents. */
  predicate Linked(rows: seq<Row>) {
    rows == [] ||
    var rest, last := rows[..|rows| - 1], rows[|rows| - 1];
    Linked(rest) && last.chainHash == HeadHash(rest)
  }

  predicate IdsIncrease(rows: seq<Row>) {
    rows == [] ||
    var rest, last := rows[..|rows| - 1], rows[|rows| - 1];
    IdsIncrease(rest) && forall r :: r in rest ==> r.id < last.id
  }

  predicate IsHashed(digest: Digest, r: Row) {
    && r.documentId.Some? && WellFormedEvent(EventOf(r))
    && r.actualHash == digest(Preimage(EventOf(r), r.chainHash))
  }

  /** A ledger an auditor accepts by recomputing every hash. */
  predicate Valid(digest: Digest, rows: seq<Row>) {
    rows == [] ||
    var rest, last := rows[..|rows| - 1], rows[|rows| - 1];
    Valid(digest, rest) && IsHashed(digest, last) && last.chainHash == HeadHash(rest)
  }

  /** The recorded history: everything but the serial ids, which no hash covers. */
  function Events(rows: seq<Row>): seq<Event>
    requires forall r :: r in rows ==> r.documentId.Some?
  {
    if rows == [] then [] else Events(rows[..|rows| - 1]) + [EventOf(rows[|rows| - 1])]
  }

  lemma {:induction false} ValidRows(digest: Digest, rows: seq<Row>)
    requires Valid(digest, rows) && HasFixedLength(digest)
    ensures forall r :: r in rows ==> r.documentId.Some?
    ensures |HeadHash(rows)| == HASH_LENGTH
    ensures Linked(rows)
  {
    if rows != [] {
      ValidRows(digest, rows[..|rows| - 1]);
      assert rows == rows[..|rows| - 1] + [rows[|rows| - 1]];
    }
  }

  // ------------------------------------------------------------------------------------------
  // The concatenation without separators can be read back in only one way.
  // ------------------------------------------------------------------------------------------

  /** The fourth character from the end is different for every audit type. */
  lemma AuditTypesEndDifferently(s: AuditType, t: AuditType)
    ensures |Text(s)| >= 4 && |Text(t)| >= 4
    ensures Text(s)[|Text(s)| - 4] == Text(t)[|Text(t)| - 4] ==> s == t
  {
    assert MarkOf(s) == Text(s)[|Text(s)| - 4];
    assert MarkOf(t) == Text(t)[|Text(t)| - 4];
  }

  function MarkOf(t: AuditType): char {
    match t
    case Created => 'a'
    case Pending => 'd'
    case AprovedToSign => 's'
    case SignaturesPartial => 't'
    case SignaturesCompleted => 'e'
    case Rejected => 'c'
  }

  lemma PreimageIsUnambiguous(e: Event, chain: string, e': Event, chain': string)
    requires WellFormedEvent(e) && WellFormedEvent(e')
    requires |chain| == HASH_LENGTH && |chain'| == HASH_LENGTH
    requires Preimage(e, chain) == Preimage(e', chain')
    ensures e == e' && chain == chain'
  {
    var front, front' := e.documentId + e.chipher + chain, e'.documentId + e'.chipher + chain';
    EqualTails(front + Text(e.auditType), e.timestamp, front' + Text(e'.auditType), e'.timestamp);
    AuditTypesEndDifferently(e.auditType, e'.auditType);
    var typed, typed' := front + Text(e.auditType), front' + Text(e'.auditType);
    assert typed[|typed| - 4] == Text(e.auditType)[|Text(e.auditType)| - 4];
    assert typed'[|typed'| - 4] == Text(e'.auditType)[|Text(e'.auditType)| - 4];
    EqualTails(front, Text(e.auditType), front', Text(e'.auditType));
    EqualTails(e.documentId + e.chipher, chain, e'.documentId + e'.chipher, chain');
    assert (e.documentId + e.chipher)[..UUID_LENGTH] == e.documentId;
    assert (e'.documentId + e'.chipher)[..UUID_LENGTH] == e'.documentId;
    assert (e.documentId + e.chipher)[UUID_LENGTH..] == e.chipher;
    assert (e'.documentId + e'.chipher)[UUID_LENGTH..] == e'.chipher;
  }

  // ------------------------------------------------------------------------------------------
  // Tamper evidence.
  // ------------------------------------------------------------------------------------------

  /** What anybody presenting two histories for one head hash would have found. */
  datatype Break = Collision(a: string, b: string) | GenesisPreimage(a: string)

  predicate IsBreak(digest: Digest, b: Break) {
    match b
    case Collision(x, y) => x != y && digest(x) == digest(y)
    case GenesisPreimage(x) => digest(x) == GENESIS_HASH
  }

  function LastPreimage(rows: seq<Row>): string
    requires rows != [] && rows[|rows| - 1].documentId.Some?
  {
    Preimage(EventOf(rows[|rows| - 1]), rows[|rows| - 1].chainHash)
  }

  /** Walks both ledgers back from their heads to the newest place where they part. */
  function FindBreak(rows: seq<Row>, rows': seq<Row>): Break
    requires forall r :: r in rows ==> r.documentId.Some?
    requires forall r :: r in rows' ==> r.documentId.Some?
    requires rows != [] || rows' != []
  {
    if rows == [] then GenesisPreimage(LastPreimage(rows'))
    else if rows' == [] then GenesisPreimage(LastPreimage(rows))
    else if |rows| == |rows'| == 1 || LastPreimage(rows) != LastPreimage(rows') then
      Collision(LastPreimage(rows), LastPreimage(rows'))
    else FindBreak(rows[..|rows| - 1], rows'[..|rows'| - 1])
  }

  /**
    Tamper evidence: two accepted ledgers with the same head hash and different recorded events
    give a concrete digest collision, or a text whose digest is the genesis value.
   */
  lemma {:induction false} HeadHashCommitsToHistory(digest: Digest, rows: seq<Row>, rows': seq<Row>)
    requires HasFixedLength(digest) && Valid(digest, rows) && Valid(digest, rows')
    requires HeadHash(rows) == HeadHash(rows')
    ensures forall r :: r in rows ==> r.documentId.Some?
    ensures forall r :: r in rows' ==> r.documentId.Some?
    ensures Events(rows) != Events(rows') ==> IsBreak(digest, FindBreak(rows, rows'))
    decreases |rows|
  {
    ValidRows(digest, rows);
    ValidRows(digest, rows');
    if rows != [] && rows' != [] {
      var rest, rest' := rows[..|rows| - 1], rows'[..|rows'| - 1];
      var last, last' := rows[|rows| - 1], rows'[|rows'| - 1];
      ValidRows(digest, rest);
      ValidRows(digest, rest');
      if LastPreimage(rows) == LastPreimage(rows') {
        PreimageIsUnambiguous(EventOf(last), last.chainHash, EventOf(last'), last'.chainHash);
        HeadHashCommitsToHistory(digest, rest, rest');
      }
    }
  }

  /** The same for whole rows: apart from the ids, the stored links and digests are fixed too. */
  lemma {:induction false} EventsDetermineHashes(digest: Digest, rows: seq<Row>, rows': seq<Row>)
    requires HasFixedLength(digest) && Valid(digest, rows) && Valid(digest, rows')
    requires forall r :: r in rows ==> r.documentId.Some?
    requires forall r :: r in rows' ==> r.documentId.Some?
    requires Events(rows) == Events(rows')
    ensures |rows| == |rows'|
    ensures forall i :: 0 <= i < |rows| ==> rows'[i] == rows[i].(id := rows'[i].id)
  {
    assert rows == [] <==> rows' == [];
    if rows != [] {
      var rest, rest' := rows[..|rows| - 1], rows'[..|rows'| - 1];
      EqualTails(Events(rest), [EventOf(rows[|rows| - 1])], Events(rest'), [EventOf(rows'[|rows'| - 1])]);
      assert EventOf(rows[|rows| - 1]) == [EventOf(rows[|rows| - 1])][0] == EventOf(rows'[|rows'| - 1]);
      EventsDetermineHashes(digest, rest, rest');
    }
  }

  /** The same rows under other serial ids. */
  predicate IsRenumbered(rows: seq<Row>, rows': seq<Row>) {
    |rows'| == |rows| && forall i :: 0 <= i < |rows| ==> rows'[i] == rows[i].(id := rows'[i].id)
  }

  lemma RenumberedRest(rows: seq<Row>, rows': seq<Row>)
    requires IsRenumbered(rows, rows') && rows != []
    ensures var n := |rows| - 1;
            IsRenumbered(rows[..n], rows'[..n]) && rows'[n] == rows[n].(id := rows'[n].id)
  {
    var rest, rest' := rows[..|rows| - 1], rows'[..|rows| - 1];
    forall i | 0 <= i < |rest| ensures rest'[i] == rest[i].(id := rest'[i].id) {
      assert rest[i] == rows[i] && rest'[i] == rows'[i];
    }
  }

  /** No hash covers the serial ids: whatever they are changed to, the ledger stays valid with the same head. */
  lemma {:induction false} RenumberingKeepsValid(digest: Digest, rows: seq<Row>, rows': seq<Row>)
    requires Valid(digest, rows) && IsRenumbered(rows, rows')
    ensures Valid(digest, rows') && HeadHash(rows') == HeadHash(rows)
  {
    if rows != [] {
      RenumberedRest(rows, rows');
      RenumberingKeepsValid(digest, rows[..|rows| - 1], rows'[..|rows'| - 1]);
    }
  }

  lemma {:induction false} RenumberingKeepsEvents(rows: seq<Row>, rows': seq<Row>)
    requires IsRenumbered(rows, rows')
    requires forall r :: r in rows ==> r.documentId.Some?
    requires forall r :: r in rows' ==> r.documentId.Some?
    ensures Events(rows') == Events(rows)
  {
    if rows != [] {
      RenumberedRest(rows, rows');
      RenumberingKeepsEvents(rows[..|rows| - 1], rows'[..|rows'| - 1]);
    }
  }

  /** Exactly which ledgers share their events: the renumbered ones. */
  lemma SameEventsIffRenumbered(digest: Digest, rows: seq<Row>, rows': seq<Row>)
    requires HasFixedLength(digest) && Valid(digest, rows) && Valid(digest, rows')
    ensures (forall r :: r in rows ==> r.documentId.Some?) && (forall r :: r in rows' ==> r.documentId.Some?)
    ensures Events(rows) == Events(rows') <==> IsRenumbered(rows, rows')
  {
    ValidRows(digest, rows);
    ValidRows(digest, rows');
    if Events(rows) == Events(rows') {
      EventsDetermineHashes(digest, rows, rows');
    }
    if IsRenumbered(rows, rows') {
      RenumberingKeepsEvents(rows, rows');
    }
  }

  // ------------------------------------------------------------------------------------------
  // The service, one call at a time.
  // ------------------------------------------------------------------------------------------

  /** A legal answer to `find({ order: { id: 'DESC' }, take: 1 })`. */
  ghost predicate IsNewest(rows: seq<Row>, previous: Option<Row>) {
    match previous
    case None => rows == []
    case Some(p) => p in rows && forall r :: r in rows ==> r.id <= p.id
  }

  function ChainHashAfter(previous: Option<Row>): string {
    if previous.Some? then previous.value.actualHash else GENESIS_HASH
  }

  function NewRow(digest: Digest, id: nat, e: Event, chainHash: string): Row {
    Row(id, Some(e.documentId), e.chipher, digest(Preimage(e, chainHash)), chainHash, e.auditType, e.timestamp)
  }

  /** With increasing ids, the row with the largest id is the end of the ledger. */
  lemma NewestIsHead(rows: seq<Row>, previous: Option<Row>)
    requires IdsIncrease(rows) && IsNewest(rows, previous)
    ensures ChainHashAfter(previous) == HeadHash(rows)
  {
    if rows != [] {
      var last := rows[|rows| - 1];
      assert rows == rows[..|rows| - 1] + [last];
      assert last in rows && previous.value in rows;
    }
  }

  lemma LedgerAppend(digest: Digest, rows: seq<Row>, r: Row)
    ensures Linked(rows) && r.chainHash == HeadHash(rows) ==> Linked(rows + [r])
    ensures IdsIncrease(rows) && (forall x :: x in rows ==> x.id < r.id) ==> IdsIncrease(rows + [r])
    ensures Valid(digest, rows) && IsHashed(digest, r) && r.chainHash == HeadHash(rows) ==> Valid(digest, rows + [r])
  {
    assert (rows + [r])[..|rows|] == rows;
  }

  predicate IsSixtyFourZeros(s: string) {
    |s| == 64 && forall i :: 0 <= i < 64 ==> s[i] == '0'
  }

  class AuditChainService {
    var table: seq<Row>
    var nextId: nat
    const digest: Digest

    constructor (digest: Digest)
      ensures this.digest == digest && table == [] && InOrder()
    {
      this.digest := digest;
      this.table := [];
      this.nextId := 1;
    }

    ghost predicate InOrder()
      reads this
    {
      IdsIncrease(table) && Linked(table) && forall r :: r in table ==> r.id < nextId
    }

    /** The id is taken from the sequence even when the insert is rolled back. */
    method RecordEvent(e: Event, previous: Option<Row>, commitFails: bool) returns (saved: Option<Row>)
      requires InOrder() && IsNewest(table, previous)
      modifies this
      ensures InOrder() && nextId == old(nextId) + 1
      ensures commitFails ==> saved == None && table == old(table)
      ensures !commitFails ==>
        && saved == Some(NewRow(digest, old(nextId), e, HeadHash(old(table))))
        && table == old(table) + [saved.value]
      ensures saved.Some? ==>
        && saved.value.actualHash
           == digest(e.documentId + e.chipher + saved.value.chainHash + Text(e.auditType) + e.timestamp)
        && (old(table) != [] ==> saved.value.chainHash == old(table)[|old(table)| - 1].actualHash)
        && (old(table) == [] ==> IsSixtyFourZeros(saved.value.chainHash))
      ensures WellFormedEvent(e) && Valid(digest, old(table)) ==> Valid(digest, table)
    {
      var chainHash := GENESIS_HASH;
      if previous.Some? {
        chainHash := previous.value.actualHash;
      }
      NewestIsHead(table, previous);
      var actualHash := digest(Preimage(e, chainHash));
      var row := Row(nextId, Some(e.documentId), e.chipher, actualHash, chainHash, e.auditType, e.timestamp);
      nextId := nextId + 1;
      if commitFails {
        return None;
      }
      LedgerAppend(digest, table, row);
      table := table + [row];
      saved := Some(row);
    }
  }
}
