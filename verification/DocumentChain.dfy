/**
  The per-document transaction chain (src/document/document-transaction.service.ts).

  Every document has a chain of records. A new record's `chainHash` is the `actualHash` of the
  record read as the newest one. "Take the lock, read, decide, insert" runs in a database
  transaction holding an advisory lock keyed by `hashtext(documentId)`; the transaction may roll
  back at any point. Digests are an uninterpreted function `RegistryHash`.
 */
module DocumentChain {
  import opened Wrappers

  datatype Record = Record(documentId: string, collaboratorId: Option<string>, actualHash: string,
                           chainHash: string, timeStamp: int)

  /** The two records without collaborator are told apart by their chainHash. */
  predicate IsCompletionRecord(r: Record) {
    r.collaboratorId.None? && r.chainHash != ""
  }

  /** What `registerSignature` and `registerCompletion` ask the critical section to chain. */
  datatype Request = Signature(collaboratorId: string, signatureHash: string) | Completion(signedHash: string)

  /** The content whose digest becomes the new record's actualHash. */
  datatype Payload =
    | SignaturePayload(documentId: string, collaboratorId: string, signatureHash: string,
                       chainHash: string, timeStamp: int)
    | CompletionPayload(documentId: string, signedHash: string, chainHash: string, timeStamp: int)

  type RegistryHash = Payload -> string

  ghost predicate DigestsAreNonEmpty(hash: RegistryHash) {
    forall p :: hash(p) != ""
  }

  function PayloadOf(documentId: string, request: Request, chainHash: string, now: int): Payload {
    match request
    case Signature(collaboratorId, signatureHash) =>
      SignaturePayload(documentId, collaboratorId, signatureHash, chainHash, now)
    case Completion(signedHash) =>
      CompletionPayload(documentId, signedHash, chainHash, now)
  }

  function CollaboratorOf(request: Request): Option<string> {
    if request.Signature? then Some(request.collaboratorId) else None
  }

  /** `existing.find(isCompletionRecord)` over the records as the query returned them. */
  function FindCompletion(records: seq<Record>): (found: Option<Record>)
    ensures found.Some? <==> exists r :: r in records && IsCompletionRecord(r)
    ensures found.Some? ==> found.value in records && IsCompletionRecord(found.value)
  {
    if records == [] then None
    else if IsCompletionRecord(records[0]) then Some(records[0])
    else FindCompletion(records[1..])
  }

  datatype Outcome = AlreadyRegistered(record: Record) | Appended(record: Record)

  /** The decision taken between the query and the insert. `records` is ordered newest first. */
  function Decision(hash: RegistryHash, documentId: string, request: Request, records: seq<Record>, now: int): Outcome {
    var existing := if request.Completion? then FindCompletion(records) else None;
    if existing.Some? then AlreadyRegistered(existing.value)
    else
      var chainHash := if records == [] then "" else records[0].actualHash;
      Appended(Record(documentId, CollaboratorOf(request), hash(PayloadOf(documentId, request, chainHash, now)),
                      chainHash, now))
  }

  /** The rows of one document, in the order in which they were committed. */
  function OfDocument(table: seq<Record>, documentId: string): seq<Record> {
    if table == [] then []
    else
      var rest, last := table[..|table| - 1], table[|table| - 1];
      OfDocument(rest, documentId) + (if last.documentId == documentId then [last] else [])
  }

  /** A legal answer to `find({ where: { documentId }, order: { timeStamp: 'DESC' } })`: ties in any order. */
  ghost predicate IsQueryAnswer(table: seq<Record>, documentId: string, records: seq<Record>) {
    && multiset(records) == multiset(OfDocument(table, documentId))
    && forall i, j :: 0 <= i < j < |records| ==> records[i].timeStamp >= records[j].timeStamp
  }

  /** `r` is chained to `previous` and strictly later. */
  predicate Follows(previous: Record, r: Record) {
    previous.timeStamp < r.timeStamp && r.chainHash == previous.actualHash
  }

  /** One unbroken line, oldest first: it starts from nothing and every record follows the one before. */
  predicate Line(records: seq<Record>) {
    records == [] ||
    var rest, last := records[..|records| - 1], records[|records| - 1];
    Line(rest) && if rest == [] then last.chainHash == "" else Follows(rest[|rest| - 1], last)
  }

  lemma OfDocumentAppend(table: seq<Record>, r: Record, documentId: string)
    ensures OfDocument(table + [r], documentId)
         == if r.documentId == documentId then OfDocument(table, documentId) + [r] else OfDocument(table, documentId)
  {
    assert (table + [r])[..|table|] == table;
  }

  lemma LineAppend(records: seq<Record>, r: Record)
    requires Line(records)
    requires if records == [] then r.chainHash == "" else Follows(records[|records| - 1], r)
    ensures Line(records + [r])
  {
    assert (records + [r])[..|records|] == records;
  }

  /** The recursive definition says what it should at every position. */
  lemma {:induction false} LineAt(records: seq<Record>, i: nat)
    requires Line(records) && i < |records|
    ensures if i == 0 then records[0].chainHash == "" else Follows(records[i - 1], records[i])
  {
    var rest := records[..|records| - 1];
    if i < |rest| {
      LineAt(rest, i);
    }
  }

  lemma {:induction false} LineIsStrictlyIncreasing(records: seq<Record>, i: nat, j: nat)
    requires Line(records) && i < j < |records|
    ensures records[i].timeStamp < records[j].timeStamp
  {
    LineAt(records, j);
    if i + 1 < j {
      LineIsStrictlyIncreasing(records, i, j - 1);
    }
  }

  lemma SameMembers(a: seq<Record>, b: seq<Record>)
    requires multiset(a) == multiset(b)
    ensures |a| == |b|
    ensures forall r :: r in a <==> r in b
  {
    assert |multiset(a)| == |a| && |multiset(b)| == |b|;
    forall r ensures r in a <==> r in b {
      assert r in a <==> r in multiset(a);
      assert r in b <==> r in multiset(b);
    }
  }

  /** Whatever the tie-breaking, the newest record the query returns is the end of the line. */
  lemma NewestIsEndOfLine(table: seq<Record>, documentId: string, records: seq<Record>)
    requires IsQueryAnswer(table, documentId, records)
    requires Line(OfDocument(table, documentId))
    ensures |records| == |OfDocument(table, documentId)|
    ensures forall r :: r in records <==> r in OfDocument(table, documentId)
    ensures records != [] ==> records[0] == OfDocument(table, documentId)[|records| - 1]
  {
    var line := OfDocument(table, documentId);
    SameMembers(records, line);
    if records != [] {
      var end := line[|line| - 1];
      assert end in records;
      var k :| 0 <= k < |records| && records[k] == end;
      assert records[0].timeStamp >= end.timeStamp;
      LatestIsEnd(line, records[0]);
    }
  }

  lemma LatestIsEnd(line: seq<Record>, r: Record)
    requires Line(line) && r in line && r.timeStamp >= line[|line| - 1].timeStamp
    ensures r == line[|line| - 1]
  {
    var m :| 0 <= m < |line| && line[m] == r;
    if m != |line| - 1 {
      LineIsStrictlyIncreasing(line, m, |line| - 1);
    }
  }

  // ------------------------------------------------------------------------------------------
  // The sequential reference: calls served one at a time, in commit order.
  // ------------------------------------------------------------------------------------------

  /** A committed transaction: the opening of a document, or a served request with what it read. */
  datatype Entry =
    | Opened(initial: Record)
    | Served(documentId: string, request: Request, records: seq<Record>, now: int, outcome: Outcome)

  function Inserted(e: Entry): seq<Record> {
    match e
    case Opened(initial) => [initial]
    case Served(_, _, _, _, Appended(r)) => [r]
    case Served(_, _, _, _, AlreadyRegistered(_)) => []
  }

  function DocumentOf(e: Entry): string {
    if e.Opened? then e.initial.documentId else e.documentId
  }

  /** Committed transactions, oldest first. */
  datatype History = Start | Then(before: History, last: Entry)

  predicate Has(history: History, e: Entry) {
    history.Then? && (history.last == e || Has(history.before, e))
  }

  predicate Extends(later: History, earlier: History) {
    later == earlier || (later.Then? && Extends(later.before, earlier))
  }

  /** The table left by a history. */
  function Table(history: History): seq<Record> {
    if history.Start? then [] else Table(history.before) + Inserted(history.last)
  }

  /** The clock assumption: the moment read inside the critical section is after every committed record. */
  ghost predicate ClockAdvanced(table: seq<Record>, documentId: string, now: int) {
    forall r :: r in OfDocument(table, documentId) ==> r.timeStamp < now
  }

  ghost predicate OpensDocument(table: seq<Record>, initial: Record) {
    OfDocument(table, initial.documentId) == [] && initial.chainHash == "" && initial.collaboratorId.None?
  }

  /** `e` is what the service does when it runs alone on `table`. */
  ghost predicate RunsAlone(hash: RegistryHash, table: seq<Record>, e: Entry) {
    match e
    case Opened(initial) => OpensDocument(table, initial)
    case Served(documentId, request, records, now, outcome) =>
      && OfDocument(table, documentId) != []
      && IsQueryAnswer(table, documentId, records)
      && ClockAdvanced(table, documentId, now)
      && outcome == Decision(hash, documentId, request, records, now)
  }

  ghost predicate Serial(hash: RegistryHash, history: History) {
    history.Then? ==> Serial(hash, history.before) && RunsAlone(hash, Table(history.before), history.last)
  }

  /** How one committed transaction extends the records of a document. */
  lemma OfDocumentStep(hash: RegistryHash, table: seq<Record>, e: Entry, documentId: string)
    requires RunsAlone(hash, table, e)
    ensures OfDocument(table + Inserted(e), documentId)
         == if Inserted(e) != [] && DocumentOf(e) == documentId then OfDocument(table, documentId) + Inserted(e)
            else OfDocument(table, documentId)
  {
    if Inserted(e) == [] {
      assert table + Inserted(e) == table;
    } else {
      assert Inserted(e) == [Inserted(e)[0]];
      OfDocumentAppend(table, Inserted(e)[0], documentId);
    }
  }

  /** What the service decides on the line of a document extends that line. */
  lemma StepKeepsLine(hash: RegistryHash, table: seq<Record>, e: Entry)
    requires RunsAlone(hash, table, e) && Inserted(e) != []
    requires Line(OfDocument(table, DocumentOf(e)))
    ensures Line(OfDocument(table, DocumentOf(e)) + Inserted(e))
  {
    var r := Inserted(e)[0];
    assert Inserted(e) == [r];
    if e.Served? {
      NewestIsEndOfLine(table, e.documentId, e.records);
    }
    LineAppend(OfDocument(table, DocumentOf(e)), r);
  }

  /** Served one at a time, the records of every document form one line. */
  lemma {:induction false} SerialHistoryIsLine(hash: RegistryHash, history: History, documentId: string)
    requires Serial(hash, history)
    ensures Line(OfDocument(Table(history), documentId))
  {
    if history.Then? {
      var table, e := Table(history.before), history.last;
      SerialHistoryIsLine(hash, history.before, documentId);
      OfDocumentStep(hash, table, e, documentId);
      if Inserted(e) != [] && DocumentOf(e) == documentId {
        StepKeepsLine(hash, table, e);
      }
    }
  }

  /**
    With a clock that does not advance the chain breaks: after an append at `now`, every placement
    of the new row that respects time order is a line exactly when `now` is later than the end of
    the line. (The side condition says the new digest is not a fixed point of its own payload.)
   */
  lemma LineSurvivesIffClockAdvances(line: seq<Record>, row: Record)
    requires Line(line) && line != []
    requires row.chainHash == line[|line| - 1].actualHash && row.chainHash != "" && row.actualHash != row.chainHash
    ensures (forall k :: 0 <= k <= |line| && InTimeOrder(Placed(line, row, k)) ==> Line(Placed(line, row, k)))
       <==> line[|line| - 1].timeStamp < row.timeStamp
  {
    if line[|line| - 1].timeStamp < row.timeStamp {
      forall k | 0 <= k <= |line| && InTimeOrder(Placed(line, row, k)) ensures Line(Placed(line, row, k)) {
        LatestGoesLast(line, row, k);
        assert Placed(line, row, k) == line + [row];
        LineAppend(line, row);
      }
    } else {
      var k := EarliestPlace(line, row);
      NotALineUnlessLast(line, row, k);
    }
  }

  lemma NotALineUnlessLast(line: seq<Record>, row: Record, k: nat)
    requires Line(line) && k < |line|
    requires row.chainHash == line[|line| - 1].actualHash && row.chainHash != "" && row.actualHash != row.chainHash
    ensures !Line(Placed(line, row, k))
  {
    var placed := Placed(line, row, k);
    assert placed[k] == row && placed[k + 1] == line[k];
    assert k > 0 ==> placed[k - 1] == line[k - 1];
    LineAt(line, k);
    if Line(placed) {
      LineAt(placed, k);
      LineAt(placed, k + 1);
    }
  }

  lemma LatestGoesLast(line: seq<Record>, row: Record, k: nat)
    requires line != [] && line[|line| - 1].timeStamp < row.timeStamp
    requires k <= |line| && InTimeOrder(Placed(line, row, k))
    ensures k == |line|
  {
    var placed := Placed(line, row, k);
    assert placed[k] == row;
    assert placed[|line|] in line[|line| - 1..] + [row];
  }

  function Placed(line: seq<Record>, row: Record, k: nat): seq<Record>
    requires k <= |line|
  {
    line[..k] + [row] + line[k..]
  }

  ghost predicate InTimeOrder(records: seq<Record>) {
    forall i, j :: 0 <= i < j < |records| ==> records[i].timeStamp <= records[j].timeStamp
  }

  /** A place before the end at which a row stamped too early may appear in time order. */
  lemma {:induction false} EarliestPlace(line: seq<Record>, row: Record) returns (k: nat)
    requires Line(line) && line != []
    requires row.timeStamp <= line[|line| - 1].timeStamp
    ensures k < |line| && InTimeOrder(Placed(line, row, k))
  {
    k := 0;
    while line[k].timeStamp < row.timeStamp
      invariant k < |line|
      invariant forall i :: 0 <= i < k ==> line[i].timeStamp < row.timeStamp
      decreases |line| - k
    {
      k := k + 1;
    }
    forall i, j | 0 <= i < j < |line| ensures line[i].timeStamp <= line[j].timeStamp {
      LineIsStrictlyIncreasing(line, i, j);
    }
  }

  // ------------------------------------------------------------------------------------------
  // Completion records.
  // ------------------------------------------------------------------------------------------

  predicate NoCompletion(records: seq<Record>) {
    forall r :: r in records ==> !IsCompletionRecord(r)
  }

  predicate AtMostOneCompletion(records: seq<Record>) {
    records == [] ||
    var rest, last := records[..|records| - 1], records[|records| - 1];
    AtMostOneCompletion(rest) && (IsCompletionRecord(last) ==> NoCompletion(rest))
  }

  lemma {:induction false} CompletionIsUnique(records: seq<Record>, r: Record, r': Record)
    requires AtMostOneCompletion(records)
    requires r in records && r' in records && IsCompletionRecord(r) && IsCompletionRecord(r')
    ensures r == r'
  {
    var rest, last := records[..|records| - 1], records[|records| - 1];
    assert records == rest + [last];
    if r in rest && r' in rest {
      CompletionIsUnique(rest, r, r');
    }
  }

  /** What holds of a document's records once it was opened with a non-empty hash. */
  predicate WellOpened(records: seq<Record>) {
    && Line(records)
    && (forall r :: r in records ==> r.actualHash != "")
    && AtMostOneCompletion(records)
  }

  /** Every opening of the document in the history was done with a non-empty hash. */
  predicate OpenedWithHash(history: History, documentId: string) {
    history.Then? ==>
      && OpenedWithHash(history.before, documentId)
      && (history.last.Opened? && history.last.initial.documentId == documentId ==> history.last.initial.actualHash != "")
  }

  /** A decision taken on well-opened records keeps them well opened. */
  lemma DecisionKeepsWellOpened(hash: RegistryHash, table: seq<Record>, e: Entry)
    requires DigestsAreNonEmpty(hash) && e.Served? && RunsAlone(hash, table, e) && e.outcome.Appended?
    requires WellOpened(OfDocument(table, e.documentId))
    ensures WellOpened(OfDocument(table, e.documentId) + [e.outcome.record])
  {
    var past, r := OfDocument(table, e.documentId), e.outcome.record;
    NewestIsEndOfLine(table, e.documentId, e.records);
    assert e.records[0] == past[|past| - 1];
    LineAppend(past, r);
    assert (past + [r])[..|past|] == past;
  }

  lemma OpeningIsWellOpened(initial: Record)
    requires initial.chainHash == "" && initial.actualHash != ""
    ensures WellOpened([] + [initial])
  {
    assert ([] + [initial])[..0] == [];
    LineAppend([], initial);
  }

  lemma StepKeepsWellOpened(hash: RegistryHash, table: seq<Record>, e: Entry)
    requires DigestsAreNonEmpty(hash) && RunsAlone(hash, table, e) && Inserted(e) != []
    requires e.Opened? ==> e.initial.actualHash != ""
    requires WellOpened(OfDocument(table, DocumentOf(e)))
    ensures WellOpened(OfDocument(table, DocumentOf(e)) + Inserted(e))
  {
    if e.Served? {
      DecisionKeepsWellOpened(hash, table, e);
    } else {
      OpeningIsWellOpened(e.initial);
    }
  }

  lemma {:induction false} SerialHistoryIsWellOpened(hash: RegistryHash, history: History, documentId: string)
    requires Serial(hash, history) && DigestsAreNonEmpty(hash) && OpenedWithHash(history, documentId)
    ensures WellOpened(OfDocument(Table(history), documentId))
  {
    if history.Then? {
      var table, e := Table(history.before), history.last;
      SerialHistoryIsWellOpened(hash, history.before, documentId);
      OfDocumentStep(hash, table, e, documentId);
      if Inserted(e) != [] && DocumentOf(e) == documentId {
        StepKeepsWellOpened(hash, table, e);
      }
    }
  }

  lemma {:induction false} TableOnlyGrows(hash: RegistryHash, later: History, earlier: History, documentId: string)
    requires Serial(hash, later) && Extends(later, earlier)
    ensures Serial(hash, earlier)
    ensures forall r :: r in OfDocument(Table(earlier), documentId) ==> r in OfDocument(Table(later), documentId)
  {
    if later != earlier {
      TableOnlyGrows(hash, later.before, earlier, documentId);
      OfDocumentStep(hash, Table(later.before), later.last, documentId);
    }
  }

  lemma {:induction false} OpenedWithHashEarlier(later: History, earlier: History, documentId: string)
    requires OpenedWithHash(later, documentId) && Extends(later, earlier)
    ensures OpenedWithHash(earlier, documentId)
  {
    if later != earlier {
      OpenedWithHashEarlier(later.before, earlier, documentId);
    }
  }

  /** The history ends by serving a completion of the document. */
  predicate EndsCompleting(history: History, documentId: string) {
    history.Then? && history.last.Served? && history.last.documentId == documentId && history.last.request.Completion?
  }

  /** The records the last call read and decided on. */
  lemma LastCallReads(hash: RegistryHash, history: History, documentId: string)
    requires Serial(hash, history) && DigestsAreNonEmpty(hash) && OpenedWithHash(history, documentId)
    requires EndsCompleting(history, documentId)
    ensures WellOpened(OfDocument(Table(history.before), documentId))
    ensures forall r :: r in history.last.records <==> r in OfDocument(Table(history.before), documentId)
    ensures IsCompletionRecord(history.last.outcome.record)
    ensures history.last.outcome.record in OfDocument(Table(history), documentId)
  {
    var table, e := Table(history.before), history.last;
    SerialHistoryIsWellOpened(hash, history.before, documentId);
    NewestIsEndOfLine(table, documentId, e.records);
    OfDocumentStep(hash, table, e, documentId);
    if e.outcome.Appended? {
      assert e.records[0] in OfDocument(table, documentId);
    }
  }

  /** Repeated completions return the same record, and only the first one appends it. */
  lemma CompletionIsIdempotent(hash: RegistryHash, later: History, earlier: History, documentId: string)
    requires Serial(hash, later) && DigestsAreNonEmpty(hash) && OpenedWithHash(later, documentId)
    requires EndsCompleting(later, documentId) && EndsCompleting(earlier, documentId)
    requires Extends(later.before, earlier)
    ensures later.last.outcome == AlreadyRegistered(earlier.last.outcome.record)
  {
    OpenedWithHashEarlier(later, earlier, documentId);
    TableOnlyGrows(hash, later.before, earlier, documentId);
    LastCallReads(hash, earlier, documentId);
    LastCallReads(hash, later, documentId);
    var known := earlier.last.outcome.record;
    assert known in later.last.records;
    assert later.last.outcome.AlreadyRegistered?;
    CompletionIsUnique(OfDocument(Table(later.before), documentId), known, later.last.outcome.record);
  }

  /** No serial history appends two completion records for the document. */
  ghost predicate NeverCompletesTwice(hash: RegistryHash, initial: Record) {
    forall later, earlier ::
      Serial(hash, later) && Has(later, Opened(initial))
      && EndsCompleting(later, initial.documentId) && EndsCompleting(earlier, initial.documentId)
      && Extends(later.before, earlier)
      ==> !(earlier.last.outcome.Appended? && later.last.outcome.Appended?)
  }

  lemma {:induction false} NotYetOpened(hash: RegistryHash, history: History, documentId: string)
    requires Serial(hash, history) && OfDocument(Table(history), documentId) == []
    ensures forall e :: Has(history, e) && e.Opened? ==> e.initial.documentId != documentId
  {
    if history.Then? {
      OfDocumentStep(hash, Table(history.before), history.last, documentId);
      NotYetOpened(hash, history.before, documentId);
    }
  }

  /** A document is opened once, so its hash is the one it was opened with. */
  lemma {:induction false} OpenedOnce(hash: RegistryHash, history: History, initial: Record)
    requires Serial(hash, history) && Has(history, Opened(initial)) && initial.actualHash != ""
    ensures OfDocument(Table(history), initial.documentId) != []
    ensures OpenedWithHash(history, initial.documentId)
  {
    OfDocumentStep(hash, Table(history.before), history.last, initial.documentId);
    if history.last == Opened(initial) {
      NotYetOpened(hash, history.before, initial.documentId);
      NeverOpenedMeansHash(history.before, initial.documentId);
    } else {
      OpenedOnce(hash, history.before, initial);
    }
  }

  lemma {:induction false} NeverOpenedMeansHash(history: History, documentId: string)
    requires forall e :: Has(history, e) && e.Opened? ==> e.initial.documentId != documentId
    ensures OpenedWithHash(history, documentId)
  {
    if history.Then? {
      assert Has(history, history.last);
      forall e | Has(history.before, e) && e.Opened? ensures e.initial.documentId != documentId {
        assert Has(history, e);
      }
      NeverOpenedMeansHash(history.before, documentId);
    }
  }

  /**
    The initial record is told apart from the completion by its empty chainHash, so the guarantee
    "one completion per document" holds exactly when the initial hash is not empty.
   */
  lemma OneCompletionIffInitialHash(hash: RegistryHash, initial: Record)
    requires DigestsAreNonEmpty(hash) && initial.chainHash == "" && initial.collaboratorId.None?
    ensures NeverCompletesTwice(hash, initial) <==> initial.actualHash != ""
  {
    if initial.actualHash != "" {
      forall later, earlier |
        Serial(hash, later) && Has(later, Opened(initial))
        && EndsCompleting(later, initial.documentId) && EndsCompleting(earlier, initial.documentId)
        && Extends(later.before, earlier)
        ensures !(earlier.last.outcome.Appended? && later.last.outcome.Appended?)
      {
        OpenedOnce(hash, later, initial);
        CompletionIsIdempotent(hash, later, earlier, initial.documentId);
      }
    } else {
      var history := TwoCompletions(hash, initial);
      assert Has(history, Opened(initial));
      assert Extends(history.before, history.before);
    }
  }

  /** With an empty initial hash the first completion is not recognised, so a second one is appended. */
  lemma TwoCompletions(hash: RegistryHash, initial: Record) returns (history: History)
    requires initial.chainHash == "" && initial.collaboratorId.None? && initial.actualHash == ""
    ensures Serial(hash, history) && Has(history, Opened(initial))
    ensures EndsCompleting(history, initial.documentId) && history.last.outcome.Appended?
    ensures EndsCompleting(history.before, initial.documentId) && history.before.last.outcome.Appended?
  {
    var e1 := FirstCompletion(hash, initial);
    var e2 := SecondCompletion(hash, initial, e1.outcome.record);
    history := Then(Then(Then(Start, Opened(initial)), e1), e2);
    assert Table(history.before.before) == [initial] && Serial(hash, history.before.before);
    assert Table(history.before) == [initial] + [e1.outcome.record] && Serial(hash, history.before);
  }

  lemma FirstCompletion(hash: RegistryHash, initial: Record) returns (e: Entry)
    requires initial.chainHash == "" && initial.collaboratorId.None? && initial.actualHash == ""
    ensures RunsAlone(hash, [initial], e)
    ensures e.Served? && e.documentId == initial.documentId && e.request.Completion? && e.outcome.Appended?
    ensures e.outcome.record.chainHash == "" && e.outcome.record.documentId == initial.documentId
    ensures e.outcome.record.timeStamp == initial.timeStamp + 1
  {
    var d, now := initial.documentId, initial.timeStamp + 1;
    OfDocumentAppend([], initial, d);
    assert [] + [initial] == [initial];
    e := Served(d, Completion(""), [initial], now, Decision(hash, d, Completion(""), [initial], now));
  }

  lemma SecondCompletion(hash: RegistryHash, initial: Record, first: Record) returns (e: Entry)
    requires initial.chainHash == "" && first.chainHash == "" && first.documentId == initial.documentId
    requires first.timeStamp == initial.timeStamp + 1
    ensures RunsAlone(hash, [initial] + [first], e)
    ensures e.Served? && e.documentId == initial.documentId && e.request.Completion? && e.outcome.Appended?
  {
    var d, newestFirst, now := initial.documentId, [first, initial], initial.timeStamp + 2;
    TwoRecords(initial, first);
    e := Served(d, Completion(""), newestFirst, now, Decision(hash, d, Completion(""), newestFirst, now));
  }

  lemma TwoRecords(initial: Record, first: Record)
    requires first.documentId == initial.documentId && first.timeStamp == initial.timeStamp + 1
    ensures OfDocument([initial] + [first], initial.documentId) == [initial, first]
    ensures IsQueryAnswer([initial] + [first], initial.documentId, [first, initial])
  {
    OfDocumentAppend([], initial, initial.documentId);
    OfDocumentAppend([initial], first, initial.documentId);
    assert [] + [initial] == [initial] && [initial] + [first] == [initial, first];
    assert multiset([first, initial]) == multiset([initial, first]);
  }
}
