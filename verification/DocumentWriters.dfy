/**
  Any number of concurrent writers of the per-document chains
  (src/document/document-transaction.service.ts:157-214).

  A transaction waits for the advisory lock of its document, queries the records, decides, and
  commits; it may roll back at any moment. The lock is keyed by `hashtext(documentId)`, so
  documents may share a key. `interleaving of transactions == one at a time, in commit order` is
  the result everything else follows from.
 */
module DocumentWriters {
  import opened DocumentChain

  type Writer = nat

  /** Where a writer is inside its transaction. A writer not listed in the state is idle. */
  datatype Phase =
    | Waiting(documentId: string, request: Request)
    | Locked(documentId: string, request: Request)
    | Queried(documentId: string, request: Request, records: seq<Record>)
    | Decided(documentId: string, request: Request, records: seq<Record>, now: int, outcome: Outcome)

  predicate InCriticalSection(p: Phase) {
    !p.Waiting?
  }

  /** `table` is what is committed; `history` records, in commit order, how it came about. */
  datatype State = State(table: seq<Record>, phases: map<Writer, Phase>, locks: map<int, Writer>, history: History)

  datatype Step =
    | Open(initial: Record)
    | Begin(w: Writer, documentId: string, request: Request)
    | Acquire(w: Writer)
    | Query(w: Writer, records: seq<Record>)
    | Decide(w: Writer, now: int)
    | Commit(w: Writer)
    | Rollback(w: Writer)

  /** The digest function and `hashtext`, both uninterpreted. */
  datatype Environment = Environment(hash: RegistryHash, key: string -> int)

  const INITIAL := State([], map[], map[], Start)

  ghost predicate Enabled(env: Environment, s: State, step: Step) {
    match step
    // createInitial commits with, or right after, the document row; no collaborator exists before.
    case Open(initial) => OpensDocument(s.table, initial)
    // A registration is only requested for a document whose creation finished.
    case Begin(w, documentId, _) => w !in s.phases && OfDocument(s.table, documentId) != []
    case Acquire(w) => w in s.phases && s.phases[w].Waiting? && env.key(s.phases[w].documentId) !in s.locks
    case Query(w, records) =>
      w in s.phases && s.phases[w].Locked? && IsQueryAnswer(s.table, s.phases[w].documentId, records)
    case Decide(w, _) => w in s.phases && s.phases[w].Queried?
    case Commit(w) => w in s.phases && s.phases[w].Decided?
    case Rollback(w) => w in s.phases
  }

  /** The writer's transaction ends; a transaction-scoped lock is released with it. */
  function End(env: Environment, s: State, w: Writer): State
    requires w in s.phases
  {
    var key := env.key(s.phases[w].documentId);
    s.(phases := s.phases - {w}, locks := if InCriticalSection(s.phases[w]) then s.locks - {key} else s.locks)
  }

  function EntryOf(p: Phase): Entry
    requires p.Decided?
  {
    Served(p.documentId, p.request, p.records, p.now, p.outcome)
  }

  ghost function Apply(env: Environment, s: State, step: Step): State
    requires Enabled(env, s, step)
  {
    match step
    case Open(initial) =>
      s.(table := s.table + [initial], history := Then(s.history, Opened(initial)))
    case Begin(w, documentId, request) =>
      s.(phases := s.phases[w := Waiting(documentId, request)])
    case Acquire(w) =>
      var Waiting(documentId, request) := s.phases[w];
      s.(phases := s.phases[w := Locked(documentId, request)], locks := s.locks[env.key(documentId) := w])
    case Query(w, records) =>
      var Locked(documentId, request) := s.phases[w];
      s.(phases := s.phases[w := Queried(documentId, request, records)])
    case Decide(w, now) =>
      var Queried(documentId, request, records) := s.phases[w];
      s.(phases := s.phases[w := Decided(documentId, request, records, now,
                                         Decision(env.hash, documentId, request, records, now))])
    case Commit(w) =>
      var e := EntryOf(s.phases[w]);
      End(env, s, w).(table := s.table + Inserted(e), history := Then(s.history, e))
    case Rollback(w) =>
      End(env, s, w)
  }

  /** The assumption on clocks: a moment read in a critical section is after every committed record. */
  ghost predicate ClockIsLater(s: State, step: Step) {
    step.Decide? && step.w in s.phases ==> ClockAdvanced(s.table, s.phases[step.w].documentId, step.now)
  }

  ghost predicate IsRun(env: Environment, run: seq<State>, steps: seq<Step>) {
    && |run| == |steps| + 1 && run[0] == INITIAL
    && forall i :: 0 <= i < |steps| ==>
         Enabled(env, run[i], steps[i]) && ClockIsLater(run[i], steps[i]) && run[i + 1] == Apply(env, run[i], steps[i])
  }

  // ------------------------------------------------------------------------------------------
  // What every step keeps.
  // ------------------------------------------------------------------------------------------

  /** What is known about one writer: who is inside holds the lock, and has seen the current rows. */
  ghost predicate WriterOk(env: Environment, s: State, w: Writer, p: Phase) {
    && OfDocument(s.table, p.documentId) != []
    && (InCriticalSection(p) ==> env.key(p.documentId) in s.locks && s.locks[env.key(p.documentId)] == w)
    && (p.Queried? || p.Decided? ==> IsQueryAnswer(s.table, p.documentId, p.records))
    && (p.Decided? ==> RunsAlone(env.hash, s.table, EntryOf(p)))
  }

  ghost predicate WritersOk(env: Environment, s: State) {
    forall w :: w in s.phases ==> WriterOk(env, s, w, s.phases[w])
  }

  ghost predicate Invariant(env: Environment, s: State) {
    && WritersOk(env, s)
    && s.table == Table(s.history)
    && Serial(env.hash, s.history)
  }

  /** A writer's view depends only on the rows of its own document and on its own lock. */
  lemma WriterFrame(env: Environment, s: State, t: State, w: Writer, p: Phase)
    requires WriterOk(env, s, w, p)
    requires OfDocument(t.table, p.documentId) == OfDocument(s.table, p.documentId)
    requires InCriticalSection(p) ==> env.key(p.documentId) in t.locks && t.locks[env.key(p.documentId)] == w
    ensures WriterOk(env, t, w, p)
  {
  }

  /** Rows are only inserted into a document by the holder of its lock, so other views stay current. */
  lemma CommitKeepsOthers(env: Environment, s: State, w: Writer, v: Writer)
    requires Invariant(env, s) && Enabled(env, s, Commit(w)) && v in s.phases && v != w
    ensures WriterOk(env, Apply(env, s, Commit(w)), v, s.phases[v])
  {
    var p, q := s.phases[w], s.phases[v];
    assert WriterOk(env, s, w, p) && WriterOk(env, s, v, q);
    var t := Apply(env, s, Commit(w));
    OfDocumentStep(env.hash, s.table, EntryOf(p), q.documentId);
    if q.Waiting? {
      assert OfDocument(t.table, q.documentId) != [];
    } else {
      assert env.key(q.documentId) != env.key(p.documentId);
      WriterFrame(env, s, t, v, q);
    }
  }

  lemma RollbackKeepsOthers(env: Environment, s: State, w: Writer, v: Writer)
    requires Invariant(env, s) && Enabled(env, s, Rollback(w)) && v in s.phases && v != w
    ensures WriterOk(env, Apply(env, s, Rollback(w)), v, s.phases[v])
  {
    assert WriterOk(env, s, w, s.phases[w]) && WriterOk(env, s, v, s.phases[v]);
    WriterFrame(env, s, Apply(env, s, Rollback(w)), v, s.phases[v]);
  }

  lemma OpenKeepsWriters(env: Environment, s: State, initial: Record, v: Writer)
    requires Invariant(env, s) && Enabled(env, s, Open(initial)) && v in s.phases
    ensures WriterOk(env, Apply(env, s, Open(initial)), v, s.phases[v])
  {
    assert WriterOk(env, s, v, s.phases[v]);
    OfDocumentStep(env.hash, s.table, Opened(initial), s.phases[v].documentId);
    WriterFrame(env, s, Apply(env, s, Open(initial)), v, s.phases[v]);
  }

  /** The other steps change neither the rows nor anybody else's lock. */
  lemma InnerStepKeepsWriters(env: Environment, s: State, step: Step, v: Writer)
    requires Invariant(env, s) && Enabled(env, s, step) && ClockIsLater(s, step)
    requires step.Begin? || step.Acquire? || step.Query? || step.Decide?
    requires v in Apply(env, s, step).phases
    ensures WriterOk(env, Apply(env, s, step), v, Apply(env, s, step).phases[v])
  {
    var t := Apply(env, s, step);
    if v == step.w {
      assert step.Begin? || WriterOk(env, s, v, s.phases[v]);
    } else {
      assert WriterOk(env, s, v, s.phases[v]);
      WriterFrame(env, s, t, v, s.phases[v]);
    }
  }

  lemma StepKeepsInvariant(env: Environment, s: State, step: Step)
    requires Invariant(env, s) && Enabled(env, s, step) && ClockIsLater(s, step)
    ensures Invariant(env, Apply(env, s, step))
  {
    var t := Apply(env, s, step);
    if step.Commit? {
      assert WriterOk(env, s, step.w, s.phases[step.w]);
    }
    forall v | v in t.phases ensures WriterOk(env, t, v, t.phases[v]) {
      match step
      case Commit(w) => CommitKeepsOthers(env, s, w, v);
      case Rollback(w) => RollbackKeepsOthers(env, s, w, v);
      case Open(initial) => OpenKeepsWriters(env, s, initial, v);
      case _ => InnerStepKeepsWriters(env, s, step, v);
    }
  }

  /**
    Every interleaving, with rollbacks anywhere, leaves the table that serving the committed
    calls alone, in commit order, would leave.
   */
  lemma {:induction false} InterleavingIsSerial(env: Environment, run: seq<State>, steps: seq<Step>, i: nat)
    requires IsRun(env, run, steps) && i < |run|
    ensures Invariant(env, run[i])
  {
    if i > 0 {
      InterleavingIsSerial(env, run, steps, i - 1);
      StepKeepsInvariant(env, run[i - 1], steps[i - 1]);
    }
  }

  /** In every reachable state the committed records of every document form one line in time order. */
  lemma CommittedRecordsFormOneLine(env: Environment, run: seq<State>, steps: seq<Step>, i: nat, documentId: string)
    requires IsRun(env, run, steps) && i < |run|
    ensures Line(OfDocument(run[i].table, documentId))
  {
    InterleavingIsSerial(env, run, steps, i);
    SerialHistoryIsLine(env.hash, run[i].history, documentId);
  }

  /** Two writers are never inside the critical section of the same lock key. */
  lemma CriticalSectionsExclude(env: Environment, run: seq<State>, steps: seq<Step>, i: nat, v: Writer, w: Writer)
    requires IsRun(env, run, steps) && i < |run|
    requires v in run[i].phases && InCriticalSection(run[i].phases[v])
    requires w in run[i].phases && InCriticalSection(run[i].phases[w])
    requires env.key(run[i].phases[v].documentId) == env.key(run[i].phases[w].documentId)
    ensures v == w
  {
    InterleavingIsSerial(env, run, steps, i);
    assert WriterOk(env, run[i], v, run[i].phases[v]) && WriterOk(env, run[i], w, run[i].phases[w]);
  }

  /**
    Concurrent completions of a document opened with a non-empty hash all return one record, and
    the table never holds another one that counts as completion.
   */
  lemma ConcurrentCompletionsAgree(env: Environment, run: seq<State>, steps: seq<Step>, i: nat, documentId: string,
                                   later: History, earlier: History)
    requires IsRun(env, run, steps) && i < |run| && DigestsAreNonEmpty(env.hash)
    requires OpenedWithHash(run[i].history, documentId)
    requires Extends(run[i].history, later) && EndsCompleting(later, documentId)
    requires Extends(later.before, earlier) && EndsCompleting(earlier, documentId)
    ensures later.last.outcome == AlreadyRegistered(earlier.last.outcome.record)
    ensures earlier.last.outcome.record in OfDocument(run[i].table, documentId)
    ensures forall r :: r in OfDocument(run[i].table, documentId) && IsCompletionRecord(r)
                    ==> r == earlier.last.outcome.record
  {
    var history := run[i].history;
    InterleavingIsSerial(env, run, steps, i);
    OpenedWithHashEarlier(history, later, documentId);
    TableOnlyGrows(env.hash, history, later, documentId);
    CompletionIsIdempotent(env.hash, later, earlier, documentId);
    LastCallReads(env.hash, later, documentId);
    SerialHistoryIsWellOpened(env.hash, history, documentId);
    forall r | r in OfDocument(run[i].table, documentId) && IsCompletionRecord(r)
      ensures r == later.last.outcome.record
    {
      CompletionIsUnique(OfDocument(run[i].table, documentId), r, later.last.outcome.record);
    }
  }
}
