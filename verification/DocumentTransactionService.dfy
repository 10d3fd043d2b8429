/**
  The service itself, one call at a time (src/document/document-transaction.service.ts).

  The clock, the database's answer to the query and whether the database accepts the insert are
  parameters. A failing insert rolls the transaction back.
 */
module DocumentTransactions {
  import opened Wrappers
  import opened DocumentChain

  datatype ServiceError = DatabaseError

  class DocumentTransactionService {
    var table: seq<Record>
    const hash: RegistryHash

    constructor (hash: RegistryHash)
      ensures table == [] && this.hash == hash
    {
      this.table := [];
      this.hash := hash;
    }

    method CreateInitial(documentId: string, actualHash: string, now: int, insertFails: bool)
      returns (result: Result<Record, ServiceError>)
      modifies this
      ensures insertFails ==> result.Failure? && table == old(table)
      ensures !insertFails ==>
        result == Success(Record(documentId, None, actualHash, "", now)) && table == old(table) + [result.value]
      ensures result.Success? ==> !IsCompletionRecord(result.value)
      ensures !insertFails && old(OfDocument(table, documentId)) == [] ==>
        RunsAlone(hash, old(table), Opened(result.value)) && Line(OfDocument(table, documentId))
    {
      if insertFails {
        return Failure(DatabaseError);
      }
      var initial := Record(documentId, None, actualHash, "", now);
      OfDocumentAppend(table, initial, documentId);
      LineAppend([], initial);
      table := table + [initial];
      result := Success(initial);
      assert old(OfDocument(table, documentId)) == [] ==> OfDocument(table, documentId) == [] + [initial];
    }

    method RegisterSignature(documentId: string, collaboratorId: string, signatureHash: string,
                             records: seq<Record>, now: int, insertFails: bool)
      returns (result: Result<Record, ServiceError>)
      requires IsQueryAnswer(table, documentId, records)
      modifies this
      ensures Chained(hash, old(table), documentId, Signature(collaboratorId, signatureHash), records, now,
                      insertFails, table, result)
      ensures !insertFails ==>
        result.Success? && table == old(table) + [result.value] && result.value.collaboratorId == Some(collaboratorId)
      ensures !insertFails ==>
        && IsChainedRow(result.value, documentId, records, now)
        && result.value.actualHash
        == hash(SignaturePayload(documentId, collaboratorId, signatureHash, result.value.chainHash, now))
      ensures Extendable(old(table), documentId, now) ==> Line(OfDocument(table, documentId))
    {
      result := AppendChained(documentId, Signature(collaboratorId, signatureHash), records, now, insertFails);
    }

    method RegisterCompletion(documentId: string, signedHash: string, records: seq<Record>, now: int, insertFails: bool)
      returns (result: Result<Record, ServiceError>)
      requires IsQueryAnswer(table, documentId, records)
      modifies this
      ensures Chained(hash, old(table), documentId, Completion(signedHash), records, now, insertFails, table, result)
      ensures (exists r :: r in records && IsCompletionRecord(r)) ==>
        table == old(table) && result.Success? && result.value in records && IsCompletionRecord(result.value)
      ensures (forall r :: r in records ==> !IsCompletionRecord(r)) && !insertFails ==>
        && result.Success? && table == old(table) + [result.value] && result.value.collaboratorId.None?
        && IsChainedRow(result.value, documentId, records, now)
        && result.value.actualHash == hash(CompletionPayload(documentId, signedHash, result.value.chainHash, now))
      ensures Extendable(old(table), documentId, now) ==> Line(OfDocument(table, documentId))
    {
      result := AppendChained(documentId, Completion(signedHash), records, now, insertFails);
    }

    method AppendChained(documentId: string, request: Request, records: seq<Record>, now: int, insertFails: bool)
      returns (result: Result<Record, ServiceError>)
      requires IsQueryAnswer(table, documentId, records)
      modifies this
      ensures Chained(hash, old(table), documentId, request, records, now, insertFails, table, result)
      ensures Extendable(old(table), documentId, now) ==> Line(OfDocument(table, documentId))
    {
      if request.Completion? {
        var alreadyRegistered := FindCompletion(records);
        if alreadyRegistered.Some? {
          return Success(alreadyRegistered.value);
        }
      }
      var chainHash := "";
      if 0 < |records| {
        chainHash := records[0].actualHash;
      }
      var actualHash := hash(PayloadOf(documentId, request, chainHash, now));
      if insertFails {
        return Failure(DatabaseError);
      }
      var row := Record(documentId, CollaboratorOf(request), actualHash, chainHash, now);
      ghost var e := Served(documentId, request, records, now, Appended(row));
      if Extendable(table, documentId, now) {
        OfDocumentStep(hash, table, e, documentId);
        StepKeepsLine(hash, table, e);
      }
      table := table + [row];
      result := Success(row);
    }
  }

  /** The document was opened, its records form a line, and the clock has moved on since. */
  ghost predicate Extendable(table: seq<Record>, documentId: string, now: int) {
    && OfDocument(table, documentId) != []
    && Line(OfDocument(table, documentId))
    && ClockAdvanced(table, documentId, now)
  }

  /** A row of the document written at `now`, linked to the newest of the records read or to nothing. */
  predicate IsChainedRow(row: Record, documentId: string, records: seq<Record>, now: int) {
    && row.documentId == documentId && row.timeStamp == now
    && row.chainHash == if records == [] then "" else records[0].actualHash
  }

  /** One committed or rolled back call: the returned record and the new table. */
  ghost predicate Chained(hash: RegistryHash, before: seq<Record>, documentId: string, request: Request,
                          records: seq<Record>, now: int, insertFails: bool,
                          after: seq<Record>, result: Result<Record, ServiceError>) {
    match Decision(hash, documentId, request, records, now)
    case AlreadyRegistered(r) => after == before && result == Success(r)
    case Appended(r) =>
      if insertFails then after == before && result == Failure(DatabaseError)
      else after == before + [r] && result == Success(r)
  }
}
