/**
  Any number of concurrent writers of the global audit ledger, and document deletions
  (src/audit-chain/audit-chain.service.ts:54-102, src/migrations/1784300000016-CreateAuditChain.ts).

  One advisory lock serialises the writers. Serial ids are drawn at the insert and are not given
  back on rollback. Deleting a document sets `document_id` to NULL in its rows, lock or no lock.
 */
module AuditWriters {
  import opened Wrappers
  import opened AuditLedger

  type Writer = nat

  datatype Phase =
    | Waiting(documentId: string, auditType: AuditType)
    | Locked(documentId: string, auditType: AuditType)
    | Queried(documentId: string, auditType: AuditType, previous: Option<Row>)
    | Inserted(row: Row)

  /** `original` is what `table` would be if no document had ever been deleted. */
  datatype State = State(table: seq<Row>, original: seq<Row>, phases: map<Writer, Phase>,
                         holder: Option<Writer>, nextId: nat)

  datatype Step =
    | Begin(w: Writer, documentId: string, auditType: AuditType)
    | Acquire(w: Writer)
    | Query(w: Writer, previous: Option<Row>)
    | Insert(w: Writer, chipher: string, timestamp: string)
    | Commit(w: Writer)
    | Rollback(w: Writer)
    | DeleteDocument(documentId: string)

  const INITIAL := State([], [], map[], None, 1)

  predicate InCriticalSection(p: Phase) {
    !p.Waiting?
  }

  ghost predicate Enabled(s: State, step: Step) {
    match step
    case Begin(w, documentId, _) => w !in s.phases && |documentId| == UUID_LENGTH
    case Acquire(w) => w in s.phases && s.phases[w].Waiting? && s.holder.None?
    case Query(w, previous) => w in s.phases && s.phases[w].Locked? && IsNewest(s.table, previous)
    case Insert(w, _, timestamp) => w in s.phases && s.phases[w].Queried? && |timestamp| == ISO_LENGTH
    case Commit(w) => w in s.phases && s.phases[w].Inserted?
    case Rollback(w) => w in s.phases
    case DeleteDocument(_) => true
  }

  /** ON DELETE SET NULL on one row and on a table. */
  function EraseRow(r: Row, documentId: string): Row {
    if r.documentId == Some(documentId) then r.(documentId := None) else r
  }

  function Erase(rows: seq<Row>, documentId: string): (erased: seq<Row>)
    ensures |erased| == |rows|
    ensures forall i :: 0 <= i < |rows| ==> erased[i] == EraseRow(rows[i], documentId)
  {
    if rows == [] then []
    else Erase(rows[..|rows| - 1], documentId) + [EraseRow(rows[|rows| - 1], documentId)]
  }

  /** The end of a transaction releases the transaction-scoped lock. */
  function End(s: State, w: Writer): State
    requires w in s.phases
  {
    s.(phases := s.phases - {w}, holder := if InCriticalSection(s.phases[w]) then None else s.holder)
  }

  ghost function Apply(digest: Digest, s: State, step: Step): State
    requires Enabled(s, step)
  {
    match step
    case Begin(w, documentId, auditType) => s.(phases := s.phases[w := Waiting(documentId, auditType)])
    case Acquire(w) =>
      var Waiting(documentId, auditType) := s.phases[w];
      s.(phases := s.phases[w := Locked(documentId, auditType)], holder := Some(w))
    case Query(w, previous) =>
      var Locked(documentId, auditType) := s.phases[w];
      s.(phases := s.phases[w := Queried(documentId, auditType, previous)])
    case Insert(w, chipher, timestamp) =>
      var Queried(documentId, auditType, previous) := s.phases[w];
      var row := NewRow(digest, s.nextId, Event(documentId, chipher, auditType, timestamp), ChainHashAfter(previous));
      s.(phases := s.phases[w := Inserted(row)], nextId := s.nextId + 1)
    case Commit(w) =>
      var row := s.phases[w].row;
      End(s, w).(table := s.table + [row], original := s.original + [row])
    case Rollback(w) => End(s, w)
    case DeleteDocument(documentId) => s.(table := Erase(s.table, documentId))
  }

  ghost predicate IsRun(digest: Digest, run: seq<State>, steps: seq<Step>) {
    && |run| == |steps| + 1 && run[0] == INITIAL
    && forall i :: 0 <= i < |steps| ==> Enabled(run[i], steps[i]) && run[i + 1] == Apply(digest, run[i], steps[i])
  }

  // ------------------------------------------------------------------------------------------
  // What every step keeps.
  // ------------------------------------------------------------------------------------------

  /** The same rows, some of them without their document. */
  ghost predicate SameButErased(table: seq<Row>, original: seq<Row>) {
    && |table| == |original|
    && forall i :: 0 <= i < |table| ==> table[i] == original[i] || table[i] == original[i].(documentId := None)
  }

  ghost predicate WriterOk(digest: Digest, s: State, w: Writer, p: Phase) {
    && (InCriticalSection(p) ==> s.holder == Some(w))
    && match p
       case Waiting(documentId, _) => |documentId| == UUID_LENGTH
       case Locked(documentId, _) => |documentId| == UUID_LENGTH
       case Queried(documentId, _, previous) =>
         |documentId| == UUID_LENGTH && ChainHashAfter(previous) == HeadHash(s.original)
       case Inserted(row) =>
         && IsHashed(digest, row) && row.chainHash == HeadHash(s.original)
         && row.id < s.nextId && forall r :: r in s.original ==> r.id < row.id
  }

  ghost predicate Invariant(digest: Digest, s: State) {
    && (forall w :: w in s.phases ==> WriterOk(digest, s, w, s.phases[w]))
    && RowsOk(digest, s)
  }

  ghost predicate RowsOk(digest: Digest, s: State) {
    && SameButErased(s.table, s.original)
    && Valid(digest, s.original)
    && IdsIncrease(s.original)
    && forall r :: r in s.original ==> r.id < s.nextId
  }

  lemma {:induction false} ErasureKeepsLinks(table: seq<Row>, original: seq<Row>)
    requires SameButErased(table, original)
    ensures HeadHash(table) == HeadHash(original)
    ensures Linked(original) ==> Linked(table)
    ensures IdsIncrease(original) ==> IdsIncrease(table)
  {
    if table != [] {
      var rest, last := original[..|original| - 1], original[|original| - 1];
      var rest', last' := table[..|table| - 1], table[|table| - 1];
      ErasureKeepsLinks(rest', rest);
      if IdsIncrease(original) {
        forall r | r in rest' ensures r.id < last'.id {
          var i :| 0 <= i < |rest'| && rest'[i] == r;
          assert rest[i] in rest;
        }
      }
    }
  }

  lemma StepKeepsWriter(digest: Digest, s: State, step: Step, v: Writer)
    requires Invariant(digest, s) && Enabled(s, step)
    requires v in Apply(digest, s, step).phases
    ensures WriterOk(digest, Apply(digest, s, step), v, Apply(digest, s, step).phases[v])
  {
    if !step.DeleteDocument? && step.w in s.phases {
      assert WriterOk(digest, s, step.w, s.phases[step.w]);
    }
    if v in s.phases {
      assert WriterOk(digest, s, v, s.phases[v]);
    }
    if step.Query? {
      ErasureKeepsLinks(s.table, s.original);
      NewestIsHead(s.table, step.previous);
    }
  }

  lemma StepKeepsInvariant(digest: Digest, s: State, step: Step)
    requires Invariant(digest, s) && Enabled(s, step)
    ensures Invariant(digest, Apply(digest, s, step))
  {
    var t := Apply(digest, s, step);
    forall v | v in t.phases ensures WriterOk(digest, t, v, t.phases[v]) {
      StepKeepsWriter(digest, s, step, v);
    }
    StepKeepsRows(digest, s, step);
  }

  lemma StepKeepsRows(digest: Digest, s: State, step: Step)
    requires Invariant(digest, s) && Enabled(s, step)
    ensures RowsOk(digest, Apply(digest, s, step))
  {
    if step.Commit? {
      assert WriterOk(digest, s, step.w, s.phases[step.w]);
      LedgerAppend(digest, s.original, s.phases[step.w].row);
    }
  }

  lemma {:induction false} ReachableIsInvariant(digest: Digest, run: seq<State>, steps: seq<Step>, i: nat)
    requires IsRun(digest, run, steps) && i < |run|
    ensures Invariant(digest, run[i])
  {
    if i > 0 {
      ReachableIsInvariant(digest, run, steps, i - 1);
      StepKeepsInvariant(digest, run[i - 1], steps[i - 1]);
    }
  }

  /**
    In every reachable state the committed rows form one line from the genesis hash, in id order,
    deleted documents included; and filling the deleted document ids back in gives a ledger that
    recomputes from the genesis hash to the same head.
   */
  lemma CommittedRowsFormOneLine(digest: Digest, run: seq<State>, steps: seq<Step>, i: nat)
    requires IsRun(digest, run, steps) && i < |run| && HasFixedLength(digest)
    ensures Linked(run[i].table) && IdsIncrease(run[i].table)
    ensures SameButErased(run[i].table, run[i].original)
    ensures Valid(digest, run[i].original) && HeadHash(run[i].original) == HeadHash(run[i].table)
  {
    ReachableIsInvariant(digest, run, steps, i);
    ValidRows(digest, run[i].original);
    ErasureKeepsLinks(run[i].table, run[i].original);
  }

  /**
    A table whose deleted document ids are filled in two different ways cannot be accepted both
    times without exhibiting a break of the digest: erasure does not weaken the evidence.
   */
  lemma ErasedDocumentsStayCommitted(digest: Digest, table: seq<Row>, one: seq<Row>, other: seq<Row>)
    requires HasFixedLength(digest) && SameButErased(table, one) && SameButErased(table, other)
    requires Valid(digest, one) && Valid(digest, other)
    ensures forall r :: r in one ==> r.documentId.Some?
    ensures forall r :: r in other ==> r.documentId.Some?
    ensures one == other || (one != [] && IsBreak(digest, FindBreak(one, other)))
  {
    ErasureKeepsLinks(table, one);
    ErasureKeepsLinks(table, other);
    HeadHashCommitsToHistory(digest, one, other);
    if Events(one) == Events(other) {
      SameEventsSameRows(digest, table, one, other);
    }
  }

  lemma SameEventsSameRows(digest: Digest, table: seq<Row>, one: seq<Row>, other: seq<Row>)
    requires HasFixedLength(digest) && SameButErased(table, one) && SameButErased(table, other)
    requires Valid(digest, one) && Valid(digest, other)
    requires forall r :: r in one ==> r.documentId.Some?
    requires forall r :: r in other ==> r.documentId.Some?
    requires Events(one) == Events(other)
    ensures one == other
  {
    EventsDetermineHashes(digest, one, other);
    forall i | 0 <= i < |one| ensures one[i] == other[i] {
      assert other[i] == one[i].(id := other[i].id);
      assert table[i].id == one[i].id && table[i].id == other[i].id;
    }
  }
}
