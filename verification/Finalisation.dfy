/**
  Finishing a document (finalizeSignedDocument, sealAdvancedSignatures, markSealingPending,
  attachSignaturesSheet and resolveDocumentBucket in src/document/document.service.ts).

  The document lives in several stores that no transaction spans: the object buckets, its row and the
  table of seals. Any call to a store may fail, with or without having taken effect, and the process
  may die between two of them. Who calls it, and how often, is in SigningRuns.
 */
module Finalisation {
  import opened Wrappers

  type Bytes = string

  /** SHA-256 of a file, uninterpreted. */
  type Digest = Bytes -> string

  datatype Status =
    | CREATED | PENDING_APPROVAL | PENDING_SIGNATURE | SIGNED | CANCELLATION_PENDING | CANCELLED | REJECTED | EXPIRED

  datatype Bucket =
    | CREATED_DOCUMENTS | PARTIALLY_SIGNED_DOCUMENTS | SIGNED_DOCUMENTS | FINALIZED_DOCUMENTS
    | CANCELLED_DOCUMENTS | REJECTED_DOCUMENTS

  /** `covers` is the signedHash sent along with simple signatures; advanced ones are sealed without it. */
  datatype Seal = Seal(id: nat, covers: Option<string>)

  /** What the evidence sheet prints. */
  datatype Sheet = Sheet(hash: Option<string>, seal: Option<Seal>)

  /** appendPdfPages: the pages of the stamped document followed by those of the sheet. */
  datatype Finalised = Finalised(document: Bytes, sheet: Sheet)

  datatype Row = Row(status: Status, signedHash: Option<string>, signedAt: Option<int>, sealingPendingAt: Option<int>,
                     completedSignersCount: nat)

  /** `signedObject` and `finalObject` are the document's objects in signed_documents and finalized_documents. */
  datatype State = State(row: Row, signedObject: Option<Bytes>, finalObject: Option<Finalised>, seal: Option<Seal>)

  predicate IsFinished(status: Status) {
    status == SIGNED || status == CANCELLATION_PENDING
  }

  function ResolveDocumentBucket(status: Status, completedSignersCount: nat): (r: Bucket)
    ensures r == FINALIZED_DOCUMENTS <==> IsFinished(status)
    ensures r == PARTIALLY_SIGNED_DOCUMENTS <==> status == PENDING_SIGNATURE && completedSignersCount > 0
    ensures r == CANCELLED_DOCUMENTS <==> status == CANCELLED
    ensures r == REJECTED_DOCUMENTS <==> status == REJECTED
    ensures r != SIGNED_DOCUMENTS
  {
    if status == PENDING_SIGNATURE && completedSignersCount > 0 then PARTIALLY_SIGNED_DOCUMENTS
    else
      match status
      case CANCELLED => CANCELLED_DOCUMENTS
      case REJECTED => REJECTED_DOCUMENTS
      case SIGNED | CANCELLATION_PENDING => FINALIZED_DOCUMENTS
      case PENDING_SIGNATURE | PENDING_APPROVAL | CREATED | EXPIRED => CREATED_DOCUMENTS
  }

  // ------------------------------------------------------------------------------------------
  // Sealing.
  // ------------------------------------------------------------------------------------------

  /** How saving the provider's answer goes; a lost answer may or may not have been stored. */
  datatype Saving = Saved | Lost(stored: bool)

  /**
    The signers, as far as sealing asks, and how its calls go. `hasAdvanced`: somebody signed with an
    e.firma; `missingOcsp`: one of those has no OCSP evidence; `isSimple`: nobody signs with one and
    everything the seal of simple signatures needs is there.
   */
  datatype Sealing = Sealing(hasAdvanced: bool, missingOcsp: bool, isSimple: bool, id: nat, markFails: bool,
                             providerFails: bool, saving: Saving, rereadFails: bool)

  /** The stores and the document in memory after sealing, and the seal found or made. */
  datatype Sealed = Sealed(state: State, document: Row, seal: Option<Seal>)

  /** The first mark is kept: it says since when the document has been waiting. */
  function MarkPending(s: State, document: Row, now: int, fails: bool): Sealed {
    if document.sealingPendingAt.Some? then Sealed(s, document, None)
    else
      Sealed(if fails then s else s.(row := s.row.(sealingPendingAt := Some(now))),
             document.(sealingPendingAt := Some(now)), None)
  }

  /** Inserts a seal; the second one of a document violates its unique key. */
  function InsertSeal(s: State, seal: Seal, saving: Saving): State {
    if s.seal.None? && (saving.Saved? || saving.stored) then s.(seal := Some(seal)) else s
  }

  function SealAdvanced(s: State, document: Row, now: int, x: Sealing): Sealed {
    if !x.hasAdvanced then Sealed(s, document, None)
    else if x.missingOcsp then MarkPending(s, document, now, x.markFails)
    else if x.providerFails then Sealed(s, document, None)
    else if s.seal.Some? then Sealed(s, document, if x.rereadFails then None else s.seal)
    else
      var s' := InsertSeal(s, Seal(x.id, None), x.saving);
      Sealed(s', document, if x.saving.Saved? then s'.seal else None)
  }

  /** Reads the row again, so it seals the hash stored just before. */
  function SealSimple(s: State, x: Sealing): (State, Option<Seal>) {
    if !x.isSimple || s.row.signedHash.None? || x.providerFails then (s, None)
    else
      var s' := InsertSeal(s, Seal(x.id, s.row.signedHash), x.saving);
      (s', if s.seal.None? && x.saving.Saved? then s'.seal else if x.rereadFails then None else s'.seal)
  }

  function SealAll(s: State, document: Row, now: int, x: Sealing): Sealed {
    var advanced := SealAdvanced(s, document, now, x);
    if advanced.seal.Some? then advanced
    else
      var (s', seal) := SealSimple(advanced.state, x);
      Sealed(s', advanced.document, seal)
  }

  // ------------------------------------------------------------------------------------------
  // One attempt.
  // ------------------------------------------------------------------------------------------

  const UPLOAD_SIGNED := 1
  const STORE_HASH := 2
  const SEAL := 3
  const UPLOAD_FINAL := 4
  const SAVE_STATUS := 5

  /**
    One call of finalizeSignedDocument. `stamped` is what stamping made this time: the PDF carries a
    fresh random id. `reach` is the last step that took effect before a failure, a crash or the end.
   */
  datatype Attempt = Attempt(stamped: Bytes, now: int, x: Sealing, reach: nat)

  function WithHash(digest: Digest, row: Row, a: Attempt): Row {
    row.(signedHash := Some(digest(a.stamped)), signedAt := Some(a.now))
  }

  function AfterHash(digest: Digest, s: State, a: Attempt): State {
    s.(row := WithHash(digest, s.row, a), signedObject := Some(a.stamped))
  }

  function AfterSealing(digest: Digest, s: State, document: Row, a: Attempt): Sealed {
    SealAll(AfterHash(digest, s, a), WithHash(digest, document, a), a.now, a.x)
  }

  /** `document` is the row as the caller loaded it; saving writes every column of it back. */
  function Finalise(digest: Digest, s: State, document: Row, a: Attempt): State {
    if a.reach < UPLOAD_SIGNED then s
    else if a.reach < STORE_HASH then s.(signedObject := Some(a.stamped))
    else if a.reach < SEAL then AfterHash(digest, s, a)
    else
      var sealed := AfterSealing(digest, s, document, a);
      if a.reach < UPLOAD_FINAL then sealed.state
      else
        var final := Finalised(a.stamped, Sheet(sealed.document.signedHash, sealed.seal));
        var uploaded := sealed.state.(finalObject := Some(final));
        if a.reach < SAVE_STATUS then uploaded else uploaded.(row := sealed.document.(status := SIGNED))
  }

  // ------------------------------------------------------------------------------------------
  // What one attempt keeps.
  // ------------------------------------------------------------------------------------------

  /** A finished document is whole: hash, sheet and objects speak of the same bytes. */
  predicate IsWhole(digest: Digest, s: State) {
    && s.finalObject.Some? && s.row.signedAt.Some?
    && s.signedObject == Some(s.finalObject.value.document)
    && s.row.signedHash == Some(digest(s.finalObject.value.document))
    && s.finalObject.value.sheet.hash == s.row.signedHash
  }

  predicate Invariant(digest: Digest, s: State) {
    && (IsFinished(s.row.status) ==> IsWhole(digest, s))
    && PrintsStoredSeal(s)
  }

  /** A seal on the sheet is the one in the table. */
  predicate PrintsStoredSeal(s: State) {
    s.finalObject.Some? && s.finalObject.value.sheet.seal.Some? ==> s.seal == s.finalObject.value.sheet.seal
  }

  /** A document that waits for its first signature. */
  predicate IsOpen(s: State) {
    s.row.status == PENDING_SIGNATURE && s.row.signedHash.None? && s.signedObject.None? && s.finalObject.None? && s.seal.None?
  }

  lemma SealingKeepsRest(s: State, document: Row, now: int, x: Sealing)
    ensures var r := SealAll(s, document, now, x);
            && r.state == s.(row := s.row.(sealingPendingAt := r.state.row.sealingPendingAt), seal := r.state.seal)
            && r.document == document.(sealingPendingAt := r.document.sealingPendingAt)
            && (s.seal.Some? ==> r.state.seal == s.seal)
            && (r.seal.Some? ==> r.state.seal == r.seal)
  {
  }

  /** Wherever an attempt on an unfinished document stops, the stores stay consistent. */
  lemma AttemptKeepsInvariant(digest: Digest, s: State, document: Row, a: Attempt)
    requires Invariant(digest, s) && !IsFinished(s.row.status)
    ensures Invariant(digest, Finalise(digest, s, document, a))
    ensures Finalise(digest, s, document, a).row.status == if a.reach >= SAVE_STATUS then SIGNED else s.row.status
  {
    SealingKeepsRest(AfterHash(digest, s, a), WithHash(digest, document, a), a.now, a.x);
  }

  /** Once stored, a seal is never replaced. */
  lemma SealStays(digest: Digest, s: State, document: Row, a: Attempt)
    requires s.seal.Some?
    ensures Finalise(digest, s, document, a).seal == s.seal
  {
    SealingKeepsRest(AfterHash(digest, s, a), WithHash(digest, document, a), a.now, a.x);
  }

  /**
    finalizeSignedDocument relies on its caller for not being started on a document that is already
    SIGNED: it would leave it whole exactly when it does nothing, gets as far as the new sheet, or
    stamps the very same bytes.
   */
  lemma RestartIsSafeIff(digest: Digest, s: State, document: Row, a: Attempt)
    requires Invariant(digest, s) && s.row.status == SIGNED
    ensures Invariant(digest, Finalise(digest, s, document, a))
       <==> a.reach < UPLOAD_SIGNED || a.reach >= UPLOAD_FINAL || a.stamped == s.finalObject.value.document
  {
    SealingKeepsRest(AfterHash(digest, s, a), WithHash(digest, document, a), a.now, a.x);
  }

  /** A seal made for the given hash, or one that does not speak of it. */
  predicate Covers(seal: Seal, hash: string) {
    seal.covers.None? || seal.covers == Some(hash)
  }

  /** The seal a sheet prints was made for the hash it prints exactly when no seal for another hash was there before. */
  lemma PrintedSealCoversHashIff(digest: Digest, s: State, document: Row, a: Attempt)
    requires a.reach >= UPLOAD_FINAL
    requires Finalise(digest, s, document, a).finalObject.value.sheet.seal.Some?
    ensures var sheet := Finalise(digest, s, document, a).finalObject.value.sheet;
            && sheet.hash == Some(digest(a.stamped))
            && (Covers(sheet.seal.value, digest(a.stamped)) <==> s.seal.None? || Covers(s.seal.value, digest(a.stamped)))
  {
    SealingKeepsRest(AfterHash(digest, s, a), WithHash(digest, document, a), a.now, a.x);
  }

  // ------------------------------------------------------------------------------------------
  // Exactly when a document is sealed, marked as waiting for its seal, and printed with one.
  // ------------------------------------------------------------------------------------------

  /** The provider is asked for a seal of the advanced signatures, and answers. */
  predicate AdvancedSealIsMade(x: Sealing) {
    x.hasAdvanced && !x.missingOcsp && !x.providerFails
  }

  predicate IsStored(saving: Saving) {
    saving == Saved || saving == Lost(true)
  }

  /** A document without seal gets, and is told of, an advanced one exactly if all evidence is there and the calls work. */
  lemma AdvancedSealIff(s: State, document: Row, now: int, x: Sealing)
    requires s.seal.None?
    ensures var r := SealAdvanced(s, document, now, x);
            && (r.state.seal.Some? <==> AdvancedSealIsMade(x) && IsStored(x.saving))
            && (r.state.seal.Some? ==> r.state.seal == Some(Seal(x.id, None)))
            && (r.seal.Some? <==> AdvancedSealIsMade(x) && x.saving == Saved)
            && (r.seal.Some? ==> r.seal == r.state.seal)
  {
  }

  /** One sealed before keeps its seal, which is read again. */
  lemma SealedIsReadAgainIff(s: State, document: Row, now: int, x: Sealing)
    requires s.seal.Some?
    ensures var r := SealAdvanced(s, document, now, x);
            && r.state.seal == s.seal
            && (r.seal.Some? <==> AdvancedSealIsMade(x) && !x.rereadFails)
            && (r.seal.Some? ==> r.seal == s.seal)
  {
  }

  /** The mark is set exactly if OCSP evidence is missing and there was no mark; in the store, if the write works. */
  lemma MarkedPendingIff(s: State, document: Row, now: int, x: Sealing)
    ensures var r := SealAdvanced(s, document, now, x);
            var marks := x.hasAdvanced && x.missingOcsp && document.sealingPendingAt.None?;
            && r.document.sealingPendingAt == (if marks then Some(now) else document.sealingPendingAt)
            && r.state.row.sealingPendingAt == (if marks && !x.markFails then Some(now) else s.row.sealingPendingAt)
            && (marks ==> r.seal.None? && r.state.seal == s.seal)
  {
  }

  /** Simple signatures are sealed with the hash that is stored. */
  lemma SimpleSealIff(s: State, x: Sealing)
    ensures var (s', seal) := SealSimple(s, x);
            var made := x.isSimple && s.row.signedHash.Some? && !x.providerFails;
            && (s.seal.None? ==> (s'.seal.Some? <==> made && IsStored(x.saving)))
            && (s.seal.None? && s'.seal.Some? ==> s'.seal == Some(Seal(x.id, s.row.signedHash)))
            && (s.seal.None? ==> (seal.Some? <==> made && (x.saving == Saved || (IsStored(x.saving) && !x.rereadFails))))
            && (s.seal.Some? ==> s'.seal == s.seal && (seal.Some? <==> made && !x.rereadFails))
            && (seal.Some? ==> seal == s'.seal)
  {
  }

  /** In the inputs alone: the sheet prints a seal. */
  predicate PrintsSeal(wasSealed: bool, x: Sealing) {
    && !x.providerFails
    && ((x.hasAdvanced && !x.missingOcsp) || x.isSimple)
    && if wasSealed then !x.rereadFails
       else x.saving == Saved || (x.saving == Lost(true) && x.isSimple && !x.rereadFails)
  }

  /** The seal there was, or the new one, which covers the hash if and only if it is one of simple signatures. */
  function SealToPrint(seal: Option<Seal>, x: Sealing, hash: string): Seal {
    if seal.Some? then seal.value
    else Seal(x.id, if x.hasAdvanced && !x.missingOcsp then None else Some(hash))
  }

  /** Exactly when the final sheet prints a seal, and which one. */
  lemma SheetPrintsSealIff(digest: Digest, s: State, document: Row, a: Attempt)
    requires a.reach >= UPLOAD_FINAL
    ensures var sheet := Finalise(digest, s, document, a).finalObject.value.sheet;
            && (sheet.seal.Some? <==> PrintsSeal(s.seal.Some?, a.x))
            && (sheet.seal.Some? ==> sheet.seal.value == SealToPrint(s.seal, a.x, digest(a.stamped)))
  {
  }

  /** What the attempt has changed when it stops after `reach` of its five steps. */
  lemma AttemptLeaves(digest: Digest, s: State, document: Row, a: Attempt)
    ensures var t := Finalise(digest, s, document, a);
            && t.signedObject == (if a.reach >= 1 then Some(a.stamped) else s.signedObject)
            && t.row.signedHash == (if a.reach >= 2 then Some(digest(a.stamped)) else s.row.signedHash)
            && t.row.signedAt == (if a.reach >= 2 then Some(a.now) else s.row.signedAt)
            && (a.reach < 3 ==> t.seal == s.seal)
            && (a.reach < 4 ==> t.finalObject == s.finalObject)
            && (a.reach >= 4 ==> t.finalObject.Some? && t.finalObject.value.document == a.stamped)
            && t.row.status == (if a.reach >= 5 then SIGNED else s.row.status)
            && t.row.completedSignersCount == (if a.reach >= 5 then document else s.row).completedSignersCount
            && (a.reach >= 5 ==> (t.row.sealingPendingAt.Some?
                             <==> document.sealingPendingAt.Some? || (a.x.hasAdvanced && a.x.missingOcsp)))
  {
    SealingKeepsRest(AfterHash(digest, s, a), WithHash(digest, document, a), a.now, a.x);
  }

  // ------------------------------------------------------------------------------------------
  // The service.
  // ------------------------------------------------------------------------------------------

  class DocumentService {
    var row: Row
    var signedObject: Option<Bytes>
    var finalObject: Option<Finalised>
    var seal: Option<Seal>
    const digest: Digest

    constructor (digest: Digest)
      ensures this.digest == digest && IsOpen(Snapshot())
    {
      this.digest := digest;
      this.row := Row(PENDING_SIGNATURE, None, None, None, 0);
      this.signedObject, this.finalObject, this.seal := None, None, None;
    }

    function Snapshot(): State
      reads this
    {
      State(row, signedObject, finalObject, seal)
    }

    method MarkSealingPending(document: Row, now: int, fails: bool) returns (document': Row)
      modifies this`row
      ensures Sealed(Snapshot(), document', None) == MarkPending(old(Snapshot()), document, now, fails)
    {
      document' := document;
      if document.sealingPendingAt.Some? {
        return;
      }
      document' := document.(sealingPendingAt := Some(now));
      if !fails {
        row := row.(sealingPendingAt := Some(now));
      }
    }

    method SealAdvancedSignatures(document: Row, now: int, x: Sealing) returns (document': Row, result: Option<Seal>)
      modifies this`row, this`seal
      ensures Sealed(Snapshot(), document', result) == SealAdvanced(old(Snapshot()), document, now, x)
      ensures old(seal).None? ==>
        && (seal.Some? <==> AdvancedSealIsMade(x) && IsStored(x.saving))
        && (result.Some? <==> AdvancedSealIsMade(x) && x.saving == Saved)
      ensures document'.sealingPendingAt != document.sealingPendingAt
         <==> x.hasAdvanced && x.missingOcsp && document.sealingPendingAt.None?
    {
      document', result := document, None;
      if !x.hasAdvanced {
        return;
      }
      if x.missingOcsp {
        document' := MarkSealingPending(document, now, x.markFails);
        return;
      }
      if x.providerFails {
        return;
      }
      if seal.Some? {
        // DocumentAlreadySealedException: the evidence exists, so it is read again.
        result := if x.rereadFails then None else seal;
        return;
      }
      var made := Seal(x.id, None);
      if x.saving.Saved? || x.saving.stored {
        seal := Some(made);
      }
      result := if x.saving.Saved? then Some(made) else None;
    }

    method SealSimpleSignatures(x: Sealing) returns (result: Option<Seal>)
      modifies this`seal
      ensures (Snapshot(), result) == SealSimple(old(Snapshot()), x)
    {
      result := None;
      if !x.isSimple || row.signedHash.None? || x.providerFails {
        return;
      }
      var wasFree := seal.None?;
      if wasFree && (x.saving.Saved? || x.saving.stored) {
        seal := Some(Seal(x.id, row.signedHash));
      }
      if wasFree && x.saving.Saved? {
        return seal;
      }
      result := if x.rereadFails then None else seal;
    }

    /** Returns whether it got to the end; false is an exception, which reaches the signer. */
    method FinalizeSignedDocument(loaded: Row, a: Attempt) returns (done: bool)
      modifies this
      ensures Snapshot() == Finalise(digest, old(Snapshot()), loaded, a)
      ensures done <==> a.reach >= SAVE_STATUS
      ensures !IsFinished(old(row).status) && Invariant(digest, old(Snapshot())) ==>
        Invariant(digest, Snapshot()) && (done <==> row.status == SIGNED)
      ensures done ==>
        && row.signedHash == Some(digest(a.stamped)) && row.signedAt == Some(a.now) && signedObject == Some(a.stamped)
        && finalObject.Some? && finalObject.value.document == a.stamped
        && (finalObject.value.sheet.seal.Some? <==> PrintsSeal(old(seal).Some?, a.x))
    {
      AttemptLeaves(digest, Snapshot(), loaded, a);
      if a.reach >= SAVE_STATUS {
        SheetPrintsSealIff(digest, Snapshot(), loaded, a);
      }
      if !IsFinished(row.status) && Invariant(digest, Snapshot()) {
        AttemptKeepsInvariant(digest, Snapshot(), loaded, a);
      }
      var document := loaded;
      if a.reach < UPLOAD_SIGNED {
        return false;
      }
      signedObject := Some(a.stamped);
      if a.reach < STORE_HASH {
        return false;
      }
      document := document.(signedHash := Some(digest(a.stamped)), signedAt := Some(a.now));
      row := row.(signedHash := document.signedHash, signedAt := document.signedAt);
      if a.reach < SEAL {
        return false;
      }
      var made: Option<Seal>;
      document, made := SealAdvancedSignatures(document, a.now, a.x);
      if made.None? {
        made := SealSimpleSignatures(a.x);
      }
      if a.reach < UPLOAD_FINAL {
        return false;
      }
      AttachSignaturesSheet(a.stamped, document, made);
      if a.reach < SAVE_STATUS {
        return false;
      }
      row := document.(status := SIGNED);
      return true;
    }

    method AttachSignaturesSheet(signedDocument: Bytes, document: Row, made: Option<Seal>)
      modifies this`finalObject
      ensures finalObject == Some(Finalised(signedDocument, Sheet(document.signedHash, made)))
    {
      var sheet := Sheet(document.signedHash, made);
      finalObject := Some(Finalised(signedDocument, sheet));
    }
  }
}
