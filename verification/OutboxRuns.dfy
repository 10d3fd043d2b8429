/**
  The outbox under concurrency: transactions that commit or roll back, several flushes at once,
  failing calls, and crashes between handing a message over and marking its row
  (src/event/outbox.service.ts:91-176).
 */
module OutboxRuns {
  import opened Outbox

  type Process = nat

  /** A flush in progress: the rows it read and has not finished, and whether the first one was handed over. */
  datatype Flushing = Flushing(remaining: seq<EventRow>, handedOver: bool)

  /** `discarded` remembers the ids of rows whose transaction rolled back. */
  datatype State = State(rows: Events, staged: map<Process, Events>, flushes: map<Process, Flushing>,
                         emitted: seq<Emission>, discarded: set<EventId>)

  datatype Step =
    | Begin(t: Process)
    | Insert(t: Process, row: EventRow)
    | Commit(t: Process)
    | Rollback(t: Process)
    | Read(f: Process, batch: seq<EventRow>)
    | Emit(f: Process)
    | MarkRow(f: Process, now: int)
    | SkipRow(f: Process)
    | Stop(f: Process)

  const INITIAL := State(map[], map[], map[], [], {})

  /** Generated uuids are never used twice. */
  ghost predicate IsFresh(s: State, id: EventId) {
    id !in s.rows && id !in s.discarded && forall t :: t in s.staged ==> id !in s.staged[t]
  }

  ghost predicate Enabled(s: State, step: Step) {
    match step
    case Begin(t) => t !in s.staged
    case Insert(t, row) => t in s.staged && IsFresh(s, row.id) && row.publishedAt.None?
    case Commit(t) => t in s.staged
    case Rollback(t) => t in s.staged
    case Read(f, batch) => f !in s.flushes && IsOldestBatch(s.rows, batch)
    // The message is handed over, without waiting for Kafka.
    case Emit(f) =>
      f in s.flushes && s.flushes[f].remaining != [] && HasTopic(s.flushes[f].remaining[0]) && !s.flushes[f].handedOver
    case MarkRow(f, _) =>
      f in s.flushes && s.flushes[f].remaining != []
      && (HasTopic(s.flushes[f].remaining[0]) ==> s.flushes[f].handedOver)
    // The emit or the update failed; the row stays as it is and the loop goes on.
    case SkipRow(f) => f in s.flushes && s.flushes[f].remaining != []
    // The loop ends, or the process dies anywhere in it.
    case Stop(f) => f in s.flushes
  }

  function Next(flushing: Flushing): Flushing
    requires flushing.remaining != []
  {
    Flushing(flushing.remaining[1..], false)
  }

  ghost function Apply(s: State, step: Step): State
    requires Enabled(s, step)
  {
    match step
    case Begin(t) => s.(staged := s.staged[t := map[]])
    case Insert(t, row) =>
      var more: Events := s.staged[t][row.id := row];
      s.(staged := s.staged[t := more])
    case Commit(t) => s.(rows := s.rows + s.staged[t], staged := s.staged - {t})
    case Rollback(t) => s.(staged := s.staged - {t}, discarded := s.discarded + s.staged[t].Keys)
    case Read(f, batch) => s.(flushes := s.flushes[f := Flushing(batch, false)])
    case Emit(f) =>
      var row := s.flushes[f].remaining[0];
      s.(emitted := s.emitted + [EmissionOf(row)], flushes := s.flushes[f := s.flushes[f].(handedOver := true)])
    case MarkRow(f, now) =>
      s.(rows := Mark(s.rows, {s.flushes[f].remaining[0].id}, now), flushes := s.flushes[f := Next(s.flushes[f])])
    case SkipRow(f) => s.(flushes := s.flushes[f := Next(s.flushes[f])])
    case Stop(f) => s.(flushes := s.flushes - {f})
  }

  ghost predicate IsRun(run: seq<State>, steps: seq<Step>) {
    && |run| == |steps| + 1 && run[0] == INITIAL
    && forall i :: 0 <= i < |steps| ==> Enabled(run[i], steps[i]) && run[i + 1] == Apply(run[i], steps[i])
  }

  /** The same event, published or not. */
  predicate SameEvent(a: EventRow, b: EventRow) {
    a == b.(publishedAt := a.publishedAt)
  }

  ghost predicate FlushOk(s: State, flushing: Flushing) {
    && (forall row :: row in flushing.remaining ==> row.id in s.rows && SameEvent(row, s.rows[row.id]))
    && (flushing.handedOver ==>
          && flushing.remaining != [] && HasTopic(flushing.remaining[0])
          && EmissionOf(flushing.remaining[0]) in s.emitted)
  }

  ghost predicate StagedOk(s: State, t: Process)
    requires t in s.staged
  {
    && (forall id :: id in s.staged[t] ==> s.staged[t][id].id == id && s.staged[t][id].publishedAt.None?)
    && s.staged[t].Keys !! s.rows.Keys
    && s.staged[t].Keys !! s.discarded
    && forall u :: u in s.staged && u != t ==> s.staged[t].Keys !! s.staged[u].Keys
  }

  /** A message in the log is the message of a committed row. */
  ghost predicate IsOfCommittedRow(s: State, m: Emission) {
    m.id in s.rows && HasTopic(s.rows[m.id]) && m == EmissionOf(s.rows[m.id])
  }

  /** A committed row that has something to publish is still pending, or its message went out. */
  ghost predicate PendingOrEmitted(s: State, id: EventId)
    requires id in s.rows
  {
    HasTopic(s.rows[id]) ==> s.rows[id].publishedAt.None? || EmissionOf(s.rows[id]) in s.emitted
  }

  ghost predicate Invariant(s: State) {
    && WellKeyed(s.rows)
    && s.rows.Keys !! s.discarded
    && (forall t :: t in s.staged ==> StagedOk(s, t))
    && (forall f :: f in s.flushes ==> FlushOk(s, s.flushes[f]))
    && (forall m :: m in s.emitted ==> IsOfCommittedRow(s, m))
    && (forall id :: id in s.rows ==> PendingOrEmitted(s, id))
  }

  /** Transactions of the callers. */
  lemma TransactionStep(s: State, step: Step)
    requires Invariant(s) && Enabled(s, step)
    requires step.Begin? || step.Insert? || step.Commit? || step.Rollback?
    ensures Invariant(Apply(s, step))
  {
    var t := Apply(s, step);
    if step.Commit? || step.Rollback? {
      assert StagedOk(s, step.t);
    }
    forall u | u in t.staged ensures StagedOk(t, u) {
      assert u in s.staged ==> StagedOk(s, u);
    }
    forall f | f in t.flushes ensures FlushOk(t, t.flushes[f]) {
      assert FlushOk(s, s.flushes[f]);
    }
    forall m | m in t.emitted ensures IsOfCommittedRow(t, m) {
      assert IsOfCommittedRow(s, m);
    }
    forall id | id in t.rows ensures PendingOrEmitted(t, id) {
      assert id in s.rows ==> PendingOrEmitted(s, id);
    }
  }

  /** Steps of the flushes. */
  lemma FlushStep(s: State, step: Step)
    requires Invariant(s) && Enabled(s, step)
    requires step.Read? || step.Emit? || step.MarkRow? || step.SkipRow? || step.Stop?
    ensures Invariant(Apply(s, step))
  {
    var t := Apply(s, step);
    if !step.Read? {
      assert FlushOk(s, s.flushes[step.f]);
    }
    forall u | u in t.staged ensures StagedOk(t, u) {
      assert StagedOk(s, u);
    }
    forall f | f in t.flushes ensures FlushOk(t, t.flushes[f]) {
      assert f in s.flushes ==> FlushOk(s, s.flushes[f]);
    }
    forall m | m in t.emitted ensures IsOfCommittedRow(t, m) {
      FlushEmitsCommitted(s, step, m);
    }
    forall id | id in t.rows ensures PendingOrEmitted(t, id) {
      FlushLosesNothing(s, step, id);
    }
  }

  lemma FlushEmitsCommitted(s: State, step: Step, m: Emission)
    requires Invariant(s) && Enabled(s, step)
    requires step.Read? || step.Emit? || step.MarkRow? || step.SkipRow? || step.Stop?
    requires m in Apply(s, step).emitted
    ensures IsOfCommittedRow(Apply(s, step), m)
  {
    if m in s.emitted {
      assert IsOfCommittedRow(s, m);
    } else {
      assert FlushOk(s, s.flushes[step.f]);
      assert s.flushes[step.f].remaining[0] in s.flushes[step.f].remaining;
    }
  }

  lemma FlushLosesNothing(s: State, step: Step, id: EventId)
    requires Invariant(s) && Enabled(s, step)
    requires step.Read? || step.Emit? || step.MarkRow? || step.SkipRow? || step.Stop?
    requires id in Apply(s, step).rows
    ensures PendingOrEmitted(Apply(s, step), id)
  {
    assert PendingOrEmitted(s, id);
    if step.MarkRow? {
      assert FlushOk(s, s.flushes[step.f]);
      assert s.flushes[step.f].remaining[0] in s.flushes[step.f].remaining;
    }
  }

  lemma {:induction false} ReachableIsInvariant(run: seq<State>, steps: seq<Step>, i: nat)
    requires IsRun(run, steps) && i < |run|
    ensures Invariant(run[i])
  {
    if i > 0 {
      ReachableIsInvariant(run, steps, i - 1);
      var step := steps[i - 1];
      if step.Begin? || step.Insert? || step.Commit? || step.Rollback? {
        TransactionStep(run[i - 1], step);
      } else {
        FlushStep(run[i - 1], step);
      }
    }
  }

  /** Nothing is announced that did not happen: every message is the message of a committed row. */
  lemma OnlyCommittedEventsAreEmitted(run: seq<State>, steps: seq<Step>, i: nat, m: Emission)
    requires IsRun(run, steps) && i < |run| && m in run[i].emitted
    ensures m.id in run[i].rows && HasTopic(run[i].rows[m.id]) && m == EmissionOf(run[i].rows[m.id])
    ensures m.id !in run[i].discarded
  {
    ReachableIsInvariant(run, steps, i);
    assert IsOfCommittedRow(run[i], m);
  }

  /** Nothing that happened is lost: a committed event is pending or was emitted at least once. */
  lemma CommittedEventsAreNotLost(run: seq<State>, steps: seq<Step>, i: nat, id: EventId)
    requires IsRun(run, steps) && i < |run|
    requires id in run[i].rows && HasTopic(run[i].rows[id]) && run[i].rows[id].publishedAt.Some?
    ensures EmissionOf(run[i].rows[id]) in run[i].emitted
  {
    ReachableIsInvariant(run, steps, i);
    assert PendingOrEmitted(run[i], id);
  }

  /** The body of the message's row, as it was enqueued, does not claim an event id of its own. */
  ghost predicate LeavesEventIdAlone(s: State, m: Emission) {
    m.id in s.rows && "eventId" !in Metadata(s.rows[m.id])
  }

  /**
    What consumers deduplicate by: of two messages in the log, from bodies that leave the key alone,
    one repeats the other exactly when they carry the same eventId.
   */
  lemma EventIdNamesTheEvent(run: seq<State>, steps: seq<Step>, i: nat, m: Emission, n: Emission)
    requires IsRun(run, steps) && i < |run| && m in run[i].emitted && n in run[i].emitted
    requires LeavesEventIdAlone(run[i], m) && LeavesEventIdAlone(run[i], n)
    ensures "eventId" in m.payload && "eventId" in n.payload
    ensures m.payload["eventId"] == n.payload["eventId"] <==> m == n
    ensures m.payload["eventId"] == n.payload["eventId"] <==> m.id == n.id
  {
    OnlyCommittedEventsAreEmitted(run, steps, i, m);
    OnlyCommittedEventsAreEmitted(run, steps, i, n);
    EventIdIsPublished(run[i].rows[m.id]);
    EventIdIsPublished(run[i].rows[n.id]);
    ReachableIsInvariant(run, steps, i);
  }

  lemma EventIdIsPublished(row: EventRow)
    requires HasTopic(row) && "eventId" !in Metadata(row)
    ensures "eventId" in EmissionOf(row).payload && EmissionOf(row).payload["eventId"] == Reference(row.id)
  {
  }

  lemma StepKeepsRows(s: State, step: Step, id: EventId)
    requires Invariant(s) && Enabled(s, step) && id in s.rows
    ensures id in Apply(s, step).rows && SameEvent(Apply(s, step).rows[id], s.rows[id])
  {
    if step.Commit? {
      assert StagedOk(s, step.t);
    }
  }

  /** Committed rows stay, and nothing but their mark ever changes. */
  lemma {:induction false} CommittedRowsStay(run: seq<State>, steps: seq<Step>, i: nat, j: nat, id: EventId)
    requires IsRun(run, steps) && i <= j < |run| && id in run[i].rows
    ensures id in run[j].rows && SameEvent(run[j].rows[id], run[i].rows[id])
  {
    if i < j {
      CommittedRowsStay(run, steps, i, j - 1, id);
      NextStateKeepsRow(run, steps, j, id);
    }
  }

  lemma NextStateKeepsRow(run: seq<State>, steps: seq<Step>, j: nat, id: EventId)
    requires IsRun(run, steps) && 0 < j < |run| && id in run[j - 1].rows
    ensures id in run[j].rows && SameEvent(run[j].rows[id], run[j - 1].rows[id])
  {
    ReachableIsInvariant(run, steps, j - 1);
    StepKeepsRows(run[j - 1], steps[j - 1], id);
  }

  /** Rows without topic are never emitted, so marking them retires them in silence. */
  lemma TracesAreRetiredInSilence(run: seq<State>, steps: seq<Step>, i: nat, j: nat, id: EventId)
    requires IsRun(run, steps) && i <= j < |run| && id in run[i].rows && !HasTopic(run[i].rows[id])
    ensures forall m :: m in run[j].emitted ==> m.id != id
  {
    CommittedRowsStay(run, steps, i, j, id);
    forall m | m in run[j].emitted ensures m.id != id {
      OnlyCommittedEventsAreEmitted(run, steps, j, m);
    }
  }

  lemma RunAppend(run: seq<State>, steps: seq<Step>, step: Step)
    requires IsRun(run, steps) && Enabled(run[|run| - 1], step)
    ensures IsRun(run + [Apply(run[|run| - 1], step)], steps + [step])
  {
  }

  lemma OneRowBatch(row: EventRow)
    requires row.publishedAt.None?
    ensures IsOldestBatch(map[row.id := row], [row])
  {
    assert row in [row];
  }

  /** A flush that dies right after handing the message over leaves the row pending. */
  lemma EmitAndCrash(run: seq<State>, steps: seq<Step>, row: EventRow) returns (run': seq<State>, steps': seq<Step>)
    requires IsRun(run, steps) && HasTopic(row) && row.publishedAt.None?
    requires run[|run| - 1].rows == map[row.id := row] && run[|run| - 1].flushes == map[]
    ensures IsRun(run', steps')
    ensures run'[|run'| - 1] == run[|run| - 1].(emitted := run[|run| - 1].emitted + [EmissionOf(row)])
  {
    var s := run[|run| - 1];
    OneRowBatch(row);
    var reading := Apply(s, Read(1, [row]));
    var handed := Apply(reading, Emit(1));
    var dead := Apply(handed, Stop(1));
    assert dead.flushes == map[];
    RunAppend(run, steps, Read(1, [row]));
    RunAppend(run + [reading], steps + [Read(1, [row])], Emit(1));
    RunAppend(run + [reading] + [handed], steps + [Read(1, [row])] + [Emit(1)], Stop(1));
    run', steps' := run + [reading] + [handed] + [dead], steps + [Read(1, [row])] + [Emit(1)] + [Stop(1)];
  }

  /** "At least once" cannot be improved: after a crash the same event is published again. */
  lemma CrashPublishesTwice(row: EventRow) returns (run: seq<State>, steps: seq<Step>)
    requires HasTopic(row) && row.publishedAt.None?
    ensures IsRun(run, steps)
    ensures run[|run| - 1].emitted == [EmissionOf(row), EmissionOf(row)]
  {
    var begun := Apply(INITIAL, Begin(0));
    var inserted := Apply(begun, Insert(0, row));
    var committed := Apply(inserted, Commit(0));
    RunAppend([INITIAL], [], Begin(0));
    RunAppend([INITIAL] + [begun], [] + [Begin(0)], Insert(0, row));
    run, steps := [INITIAL] + [begun] + [inserted], [] + [Begin(0)] + [Insert(0, row)];
    RunAppend(run, steps, Commit(0));
    assert committed.rows == map[row.id := row];
    run, steps := EmitAndCrash(run + [committed], steps + [Commit(0)], row);
    run, steps := EmitAndCrash(run, steps, row);
  }
}
