/**
  Tamper evidence for the chain of a document (src/document/document-transaction.service.ts).

  A record's actualHash is the digest of what was registered, of the link to the record before and
  of the time. Here a line of records is read together with the requests that made them, and the
  digest of its last record is shown to fix all of that, back to the hash the document was opened with.
 */
module DocumentEvidence {
  import opened Wrappers
  import opened DocumentChain
  import opened DocumentWriters

  /** The records of a document, oldest first, each appended one with the request it stands for. */
  datatype Account = Opening(initial: Record) | Appending(before: Account, record: Record, request: Request)

  function Newest(a: Account): Record {
    if a.Opening? then a.initial else a.record
  }

  function InitialHash(a: Account): string {
    if a.Opening? then a.initial.actualHash else InitialHash(a.before)
  }

  function Records(a: Account): seq<Record> {
    if a.Opening? then [a.initial] else Records(a.before) + [a.record]
  }

  /** What the digest of an appended record was made of, going by its columns and its request. */
  function SealedPayload(record: Record, request: Request): Payload {
    PayloadOf(record.documentId, request, record.chainHash, record.timeStamp)
  }

  /** What somebody accepts who is told the requests and recomputes every digest and every link. */
  ghost predicate IsSealed(hash: RegistryHash, a: Account) {
    match a
    case Opening(initial) => initial.chainHash == "" && initial.collaboratorId.None?
    case Appending(before, record, request) =>
      && IsSealed(hash, before)
      && record.documentId == Newest(before).documentId
      && record.chainHash == Newest(before).actualHash
      && record.collaboratorId == CollaboratorOf(request)
      && record.actualHash == hash(SealedPayload(record, request))
  }

  /** What was registered: the hash of the file, then each request with its document, link and time. */
  datatype Content =
    | File(actualHash: string)
    | Plus(before: Content, documentId: string, request: Request, chainHash: string, timeStamp: int)

  function ContentOf(a: Account): Content {
    match a
    case Opening(initial) => File(initial.actualHash)
    case Appending(before, r, request) => Plus(ContentOf(before), r.documentId, request, r.chainHash, r.timeStamp)
  }

  /** What anybody presenting two accounts with one newest digest would have found. */
  datatype Break = Collision(a: Payload, b: Payload) | InitialPreimage(a: Payload, initialHash: string)

  ghost predicate IsBreak(hash: RegistryHash, b: Break) {
    match b
    case Collision(p, q) => p != q && hash(p) == hash(q)
    case InitialPreimage(p, initialHash) => hash(p) == initialHash
  }

  /** Walks both accounts back from their newest records to the place where they part. */
  function FindBreak(a: Account, b: Account): Break
    requires a.Appending? || b.Appending?
  {
    if a.Opening? then InitialPreimage(SealedPayload(b.record, b.request), a.initial.actualHash)
    else if b.Opening? then InitialPreimage(SealedPayload(a.record, a.request), b.initial.actualHash)
    else
      var p, q := SealedPayload(a.record, a.request), SealedPayload(b.record, b.request);
      if p != q || (a.before.Opening? && b.before.Opening?) then Collision(p, q) else FindBreak(a.before, b.before)
  }

  /** One payload is made of one document, request, link and time. */
  lemma PayloadIsUnambiguous(r: Record, request: Request, r': Record, request': Request)
    requires SealedPayload(r, request) == SealedPayload(r', request')
    ensures request == request'
    ensures r.documentId == r'.documentId && r.chainHash == r'.chainHash && r.timeStamp == r'.timeStamp
  {
  }

  /**
    Tamper evidence: two accounts whose newest records have one digest and which differ in a
    request, a time, a link, the document or the file's hash give two payloads that collide, or a
    payload whose digest is the hash of a document's file.
   */
  lemma {:induction false} NewestHashCommitsToAccount(hash: RegistryHash, a: Account, b: Account)
    requires IsSealed(hash, a) && IsSealed(hash, b)
    requires Newest(a).actualHash == Newest(b).actualHash
    ensures ContentOf(a) != ContentOf(b) ==>
              (a.Appending? || b.Appending?) && IsBreak(hash, FindBreak(a, b)) && PartsWithin(FindBreak(a, b), a, b)
    decreases a
  {
    if a.Appending? && b.Appending? && SealedPayload(a.record, a.request) == SealedPayload(b.record, b.request) {
      PayloadIsUnambiguous(a.record, a.request, b.record, b.request);
      NewestHashCommitsToAccount(hash, a.before, b.before);
    }
  }

  /** The hash that a payload was found for is the one that one of the two documents was opened with. */
  predicate PartsWithin(found: Break, a: Account, b: Account) {
    found.InitialPreimage? ==> found.initialHash == InitialHash(a) || found.initialHash == InitialHash(b)
  }

  /** Nothing else is left open: what was registered fixes every record but the time of the initial one. */
  lemma {:induction false} ContentDeterminesRecords(hash: RegistryHash, a: Account, b: Account)
    requires IsSealed(hash, a) && IsSealed(hash, b)
    requires ContentOf(a) == ContentOf(b)
    ensures |Records(a)| == |Records(b)| > 0
    ensures Records(a)[1..] == Records(b)[1..]
    ensures Newest(a).actualHash == Newest(b).actualHash
  {
    if a.Appending? {
      ContentDeterminesRecords(hash, a.before, b.before);
      assert a.record == b.record;
      assert Records(a)[1..] == Records(a.before)[1..] + [a.record];
      assert Records(b)[1..] == Records(b.before)[1..] + [b.record];
    }
  }

  // ------------------------------------------------------------------------------------------
  // What the service leaves behind is such an account.
  // ------------------------------------------------------------------------------------------

  /** What one committed transaction makes of the account of a document. */
  function Continued(account: Option<Account>, e: Entry, documentId: string): Option<Account> {
    match e
    case Opened(initial) => if initial.documentId == documentId then Some(Opening(initial)) else account
    case Served(d, request, _, _, Appended(r)) =>
      if d == documentId && account.Some? then Some(Appending(account.value, r, request)) else account
    case Served(_, _, _, _, AlreadyRegistered(_)) => account
  }

  /** The document's account after a history: the requests that appended something, in commit order. */
  function AccountOf(history: History, documentId: string): Option<Account> {
    if history.Start? then None else Continued(AccountOf(history.before, documentId), history.last, documentId)
  }

  /** `account` tells how the records of the document came about. */
  ghost predicate Explains(hash: RegistryHash, account: Option<Account>, records: seq<Record>, documentId: string) {
    match account
    case None => records == []
    case Some(a) =>
      && IsSealed(hash, a) && Records(a) == records && records != []
      && records[|records| - 1] == Newest(a) && Newest(a).documentId == documentId
  }

  /** A request served alone appends a record that recomputes from it. */
  lemma ServingKeepsExplained(hash: RegistryHash, table: seq<Record>, e: Entry, a: Account, records: seq<Record>)
    requires e.Served? && e.outcome.Appended? && RunsAlone(hash, table, e) && Line(records)
    requires records == OfDocument(table, e.documentId) && Explains(hash, Some(a), records, e.documentId)
    ensures Explains(hash, Some(Appending(a, e.outcome.record, e.request)), records + [e.outcome.record], e.documentId)
  {
    NewestIsEndOfLine(table, e.documentId, e.records);
    assert e.outcome.record.chainHash == Newest(a).actualHash;
  }

  lemma OpeningIsExplained(hash: RegistryHash, table: seq<Record>, initial: Record)
    requires OpensDocument(table, initial)
    ensures Explains(hash, Some(Opening(initial)), OfDocument(table, initial.documentId) + [initial], initial.documentId)
  {
    assert OfDocument(table, initial.documentId) + [initial] == [initial];
  }

  /** `records` are those of the document before the transaction `e`, `records'` those after it. */
  lemma StepKeepsExplained(hash: RegistryHash, table: seq<Record>, e: Entry, account: Option<Account>,
                           records: seq<Record>, records': seq<Record>, documentId: string)
    requires RunsAlone(hash, table, e) && records == OfDocument(table, documentId) && Line(records)
    requires Explains(hash, account, records, documentId)
    requires records' == if Inserted(e) != [] && DocumentOf(e) == documentId then records + Inserted(e) else records
    ensures Explains(hash, Continued(account, e, documentId), records', documentId)
  {
    if DocumentOf(e) == documentId {
      match e
      case Opened(initial) => OpeningIsExplained(hash, table, initial);
      case Served(_, _, _, _, Appended(r)) => ServingKeepsExplained(hash, table, e, account.value, records);
      case Served(_, _, _, _, AlreadyRegistered(_)) =>
    }
  }

  /** Every serial history leaves, of every document, records that recompute from the requests it served. */
  lemma {:induction false} HistoryIsSealed(hash: RegistryHash, history: History, documentId: string)
    requires Serial(hash, history)
    ensures Explains(hash, AccountOf(history, documentId), OfDocument(Table(history), documentId), documentId)
  {
    if history.Then? {
      var table, e := Table(history.before), history.last;
      HistoryIsSealed(hash, history.before, documentId);
      SerialHistoryIsLine(hash, history.before, documentId);
      OfDocumentStep(hash, table, e, documentId);
      StepKeepsExplained(hash, table, e, AccountOf(history.before, documentId), OfDocument(table, documentId),
                         OfDocument(Table(history), documentId), documentId);
    }
  }

  /**
    Two databases, each reached by concurrent writers in any way, whose newest records of a document
    carry one digest: either the same requests were registered at the same times with the same
    links for the same file, or they exhibit a break of the digest.
   */
  lemma CommittedHashCommits(env: Environment, run: seq<State>, steps: seq<Step>, i: nat,
                             run': seq<State>, steps': seq<Step>, j: nat, documentId: string)
    returns (a: Account, b: Account)
    requires IsRun(env, run, steps) && i < |run|
    requires IsRun(env, run', steps') && j < |run'|
    requires OfDocument(run[i].table, documentId) != [] && OfDocument(run'[j].table, documentId) != []
    requires EndsWithHash(OfDocument(run[i].table, documentId), OfDocument(run'[j].table, documentId))
    ensures Some(a) == AccountOf(run[i].history, documentId) && Records(a) == OfDocument(run[i].table, documentId)
    ensures Some(b) == AccountOf(run'[j].history, documentId) && Records(b) == OfDocument(run'[j].table, documentId)
    ensures ContentOf(a) != ContentOf(b) ==>
              (a.Appending? || b.Appending?) && IsBreak(env.hash, FindBreak(a, b)) && PartsWithin(FindBreak(a, b), a, b)
  {
    InterleavingIsSerial(env, run, steps, i);
    InterleavingIsSerial(env, run', steps', j);
    HistoryIsSealed(env.hash, run[i].history, documentId);
    HistoryIsSealed(env.hash, run'[j].history, documentId);
    a, b := AccountOf(run[i].history, documentId).value, AccountOf(run'[j].history, documentId).value;
    NewestHashCommitsToAccount(env.hash, a, b);
  }

  predicate EndsWithHash(records: seq<Record>, records': seq<Record>)
    requires records != [] && records' != []
  {
    records[|records| - 1].actualHash == records'[|records'| - 1].actualHash
  }
}
