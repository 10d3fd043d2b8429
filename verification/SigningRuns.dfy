/**
  Everything that happens to one document while it is signed: its signers sign or reject
  (src/document/applications/sign-document.use-case.ts, reject-document.use-case.ts), the last one
  finishes the document, and seals arrive by themselves.

  A signer's call loads the document and its signers, claims the signer's answer by a conditional
  UPDATE from PENDING, and goes on with what it loaded. Calls interleave freely, and any of them may
  die. Nothing takes a claim back.
 */
module SigningRuns {
  import opened Wrappers
  import opened Finalisation

  type Signer = nat
  type CallId = nat

  /** An attempt keeps the last step of it that took effect. */
  datatype Phase = Waiting | Claimed | Rejecting | Attempted(reach: nat) | Over

  /** `document` and `seen`, the signers then PENDING, are what the call loaded. */
  datatype Call = Call(signer: Signer, document: Row, seen: set<Signer>, phase: Phase)

  datatype System = System(store: State, signers: set<Signer>, pending: set<Signer>, signed: set<Signer>,
                           rejected: set<Signer>, calls: map<CallId, Call>)

  datatype Step =
    | Load(c: CallId, signer: Signer)
    | Claim(c: CallId)
    | TryToFinish(c: CallId, attempt: Attempt)
    | CountSignature(c: CallId, written: bool)
    | ClaimRejection(c: CallId)
    | SaveRejection(c: CallId)
    | Die(c: CallId)
    // Seals that do not come from an attempt.
    | PostSeal(id: nat, saving: Saving)
    | SealLater(now: int, ready: bool, x: Sealing)
    | RequestCancellation
    | ConfirmCancellation

  /** Everybody else had answered when the call loaded the signers. */
  predicate SawNobodyElse(call: Call) {
    call.seen <= {call.signer}
  }

  predicate IsIn(s: System, c: CallId, phase: Phase) {
    c in s.calls && s.calls[c].phase == phase
  }

  /** assertPendingSignature and assertCanRespond at loading; the branch on remainingSigners after the claim. */
  predicate Enabled(s: System, step: Step) {
    match step
    case Load(c, signer) => c !in s.calls && s.store.row.status == PENDING_SIGNATURE && signer in s.pending
    case Claim(c) => IsIn(s, c, Waiting)
    case TryToFinish(c, _) => IsIn(s, c, Claimed) && SawNobodyElse(s.calls[c])
    case CountSignature(c, _) => IsIn(s, c, Claimed) && !SawNobodyElse(s.calls[c])
    case ClaimRejection(c) => IsIn(s, c, Waiting)
    case SaveRejection(c) => IsIn(s, c, Rejecting)
    case Die(c) => c in s.calls && !s.calls[c].phase.Attempted?
    case PostSeal(_, _) => true
    case SealLater(_, _, _) => s.store.row.status == SIGNED
    case RequestCancellation => s.store.row.status == SIGNED
    case ConfirmCancellation => s.store.row.status == CANCELLATION_PENDING
  }

  function WithPhase(s: System, c: CallId, phase: Phase): map<CallId, Call>
    requires c in s.calls
  {
    s.calls[c := s.calls[c].(phase := phase)]
  }

  /** completedSignersCount is counted up in memory, from what was loaded. */
  function Counted(document: Row): Row {
    document.(completedSignersCount := document.completedSignersCount + 1)
  }

  /** completePendingSealIfDue: the evidence is completed, the mark cleared, and the seal tried again. */
  function SealedLater(s: State, now: int, ready: bool, x: Sealing): State {
    if s.row.sealingPendingAt.None? || !ready then s
    else
      var cleared := s.(row := s.row.(sealingPendingAt := None));
      SealAdvanced(cleared, cleared.row, now, x).state
  }

  function Apply(digest: Digest, s: System, step: Step): System
    requires Enabled(s, step)
  {
    match step
    case Load(c, signer) => s.(calls := s.calls[c := Call(signer, s.store.row, s.pending, Waiting)])
    case Claim(c) =>
      var signer := s.calls[c].signer;
      if signer !in s.pending then s.(calls := WithPhase(s, c, Over))
      else s.(pending := s.pending - {signer}, signed := s.signed + {signer}, calls := WithPhase(s, c, Claimed))
    case TryToFinish(c, a) =>
      s.(store := Finalise(digest, s.store, Counted(s.calls[c].document), a), calls := WithPhase(s, c, Attempted(a.reach)))
    case CountSignature(c, written) =>
      var count := Counted(s.calls[c].document).completedSignersCount;
      var row := if written then s.store.row.(completedSignersCount := count) else s.store.row;
      s.(store := s.store.(row := row), calls := WithPhase(s, c, Over))
    case ClaimRejection(c) =>
      var signer := s.calls[c].signer;
      if signer !in s.pending then s.(calls := WithPhase(s, c, Over))
      else s.(pending := s.pending - {signer}, rejected := s.rejected + {signer}, calls := WithPhase(s, c, Rejecting))
    case SaveRejection(c) =>
      s.(store := s.store.(row := s.calls[c].document.(status := REJECTED)), calls := WithPhase(s, c, Over))
    case Die(c) => s.(calls := WithPhase(s, c, Over))
    // The payload of POST /seal carries no signedHash.
    case PostSeal(id, saving) => s.(store := InsertSeal(s.store, Seal(id, None), saving))
    case SealLater(now, ready, x) => s.(store := SealedLater(s.store, now, ready, x))
    case RequestCancellation => s.(store := s.store.(row := s.store.row.(status := CANCELLATION_PENDING)))
    case ConfirmCancellation => s.(store := s.store.(row := s.store.row.(status := CANCELLED)))
  }

  datatype Run = Start(system: System) | Then(before: Run, step: Step)

  predicate IsFresh(s: System) {
    IsOpen(s.store) && s.pending == s.signers && s.signed == {} && s.rejected == {} && s.calls == map[]
  }

  predicate IsRun(digest: Digest, run: Run)
    decreases run, 0
  {
    match run
    case Start(s) => IsFresh(s)
    case Then(before, step) => IsRun(digest, before) && Enabled(Last(digest, before), step)
  }

  function Last(digest: Digest, run: Run): System
    requires IsRun(digest, run)
    decreases run, 1
  {
    match run
    case Start(s) => s
    case Then(before, step) => Apply(digest, Last(digest, before), step)
  }

  predicate Extends(later: Run, earlier: Run) {
    later == earlier || (later.Then? && Extends(later.before, earlier))
  }

  /** How often finalizeSignedDocument is called. */
  function Attempts(run: Run): nat {
    if run.Start? then 0 else Attempts(run.before) + if run.step.TryToFinish? then 1 else 0
  }

  // ------------------------------------------------------------------------------------------
  // Who may finish the document.
  // ------------------------------------------------------------------------------------------

  /** The call whose turn it is, or was, to finish the document. */
  predicate IsFinisher(call: Call) {
    (call.phase.Claimed? || call.phase.Attempted?) && SawNobodyElse(call)
  }

  /** What is known about one call: it saw every signer who is still pending, and its claim stands. */
  predicate CallOk(s: System, call: Call) {
    && call.signer in call.seen && s.pending <= call.seen
    && (call.phase.Claimed? || call.phase.Attempted? ==> call.signer !in s.pending)
    && (call.phase.Attempted? ==> SawNobodyElse(call))
    && (call.phase.Rejecting? ==> s.rejected != {})
  }

  ghost predicate AnswersOk(s: System) {
    && s.pending + s.signed + s.rejected == s.signers
    && s.pending !! s.signed && s.pending !! s.rejected && s.signed !! s.rejected
  }

  ghost predicate CallsOk(s: System) {
    && (forall c :: c in s.calls ==> CallOk(s, s.calls[c]))
    && (forall c, d :: c in s.calls && d in s.calls && IsFinisher(s.calls[c]) && IsFinisher(s.calls[d]) ==> c == d)
  }

  ghost predicate HasAttempt(s: System) {
    exists c :: c in s.calls && s.calls[c].phase.Attempted?
  }

  ghost predicate HasSucceeded(s: System) {
    exists c :: c in s.calls && s.calls[c].phase.Attempted? && s.calls[c].phase.reach >= SAVE_STATUS
  }

  /** A seal the sheet prints does not speak of another hash. */
  predicate PrintedSealCovers(s: State) {
    s.finalObject.Some? && s.finalObject.value.sheet.seal.Some? ==>
      s.finalObject.value.sheet.hash.Some? && Covers(s.finalObject.value.sheet.seal.value, s.finalObject.value.sheet.hash.value)
  }

  predicate StatusOk(s: System) {
    var status := s.store.row.status;
    && (status == PENDING_SIGNATURE || IsFinished(status) || status == CANCELLED || status == REJECTED)
    && (status == REJECTED ==> s.rejected != {})
  }

  /** The outcome of the document is the outcome of an attempt. */
  ghost predicate OutcomeOk(s: System) {
    && (IsFinished(s.store.row.status) || s.store.row.status == CANCELLED ==> HasSucceeded(s))
    && (HasSucceeded(s) ==> s.store.row.status != PENDING_SIGNATURE)
    && (!HasAttempt(s) ==> s.store.seal.None? || s.store.seal.value.covers.None?)
  }

  ghost predicate Sound(digest: Digest, s: System) {
    && AnswersOk(s) && CallsOk(s) && StatusOk(s) && OutcomeOk(s)
    && Invariant(digest, s.store) && PrintedSealCovers(s.store)
  }

  lemma FinisherIsLast(s: System, c: CallId)
    requires CallsOk(s) && c in s.calls && IsFinisher(s.calls[c])
    ensures s.pending == {}
  {
    assert CallOk(s, s.calls[c]);
  }

  lemma StepKeepsCalls(digest: Digest, s: System, step: Step)
    requires AnswersOk(s) && CallsOk(s) && Enabled(s, step)
    ensures AnswersOk(Apply(digest, s, step)) && CallsOk(Apply(digest, s, step))
  {
    var t := Apply(digest, s, step);
    forall c | c in t.calls ensures CallOk(t, t.calls[c]) {
      assert c in s.calls ==> CallOk(s, s.calls[c]);
    }
    forall c, d | c in t.calls && d in t.calls && IsFinisher(t.calls[c]) && IsFinisher(t.calls[d]) ensures c == d {
      FinishersAgree(digest, s, step, c, d);
    }
  }

  /** A claim that makes a finisher is made while somebody is pending, so there was no finisher before. */
  lemma FinishersAgree(digest: Digest, s: System, step: Step, c: CallId, d: CallId)
    requires CallsOk(s) && Enabled(s, step)
    requires var t := Apply(digest, s, step);
             c in t.calls && d in t.calls && IsFinisher(t.calls[c]) && IsFinisher(t.calls[d])
    ensures c == d
  {
    if c in s.calls && IsFinisher(s.calls[c]) {
      FinisherIsLast(s, c);
    }
    if d in s.calls && IsFinisher(s.calls[d]) {
      FinisherIsLast(s, d);
    }
  }

  /** Attempts stay, and only an attempt makes one. */
  lemma AttemptsStay(digest: Digest, s: System, step: Step, c: CallId)
    requires Enabled(s, step) && c in s.calls && s.calls[c].phase.Attempted?
    ensures c in Apply(digest, s, step).calls && Apply(digest, s, step).calls[c] == s.calls[c]
  {
  }

  lemma OnlyAttemptsAttempt(digest: Digest, s: System, step: Step, c: CallId)
    requires Enabled(s, step) && c in Apply(digest, s, step).calls && Apply(digest, s, step).calls[c].phase.Attempted?
    ensures if step.TryToFinish? && step.c == c then Apply(digest, s, step).calls[c].phase.reach == step.attempt.reach
            else c in s.calls && s.calls[c].phase == Apply(digest, s, step).calls[c].phase
  {
  }

  lemma SameAttempts(digest: Digest, s: System, step: Step)
    requires Enabled(s, step) && !step.TryToFinish?
    ensures HasAttempt(Apply(digest, s, step)) <==> HasAttempt(s)
    ensures HasSucceeded(Apply(digest, s, step)) <==> HasSucceeded(s)
  {
    var t := Apply(digest, s, step);
    forall c | c in s.calls && s.calls[c].phase.Attempted? ensures c in t.calls && t.calls[c] == s.calls[c] {
      AttemptsStay(digest, s, step, c);
    }
    forall c | c in t.calls && t.calls[c].phase.Attempted? ensures c in s.calls && s.calls[c].phase == t.calls[c].phase {
      OnlyAttemptsAttempt(digest, s, step, c);
    }
  }

  /** When a call may finish the document, nobody has tried before. */
  lemma FirstAttempt(s: System, c: CallId)
    requires CallsOk(s) && IsIn(s, c, Claimed) && SawNobodyElse(s.calls[c])
    ensures !HasAttempt(s)
  {
    forall d | d in s.calls && d != c ensures !s.calls[d].phase.Attempted? {
      assert CallOk(s, s.calls[d]);
      assert IsFinisher(s.calls[c]);
    }
  }

  lemma AttemptKeepsSound(digest: Digest, s: System, c: CallId, a: Attempt)
    requires Sound(digest, s) && Enabled(s, TryToFinish(c, a))
    ensures Sound(digest, Apply(digest, s, TryToFinish(c, a)))
  {
    var step := TryToFinish(c, a);
    var t, document := Apply(digest, s, step), Counted(s.calls[c].document);
    StepKeepsCalls(digest, s, step);
    FirstAttempt(s, c);
    AttemptKeepsInvariant(digest, s.store, document, a);
    AttemptOutcome(digest, s, c, a);
    if a.reach >= UPLOAD_FINAL && t.store.finalObject.value.sheet.seal.Some? {
      PrintedSealCoversHashIff(digest, s.store, document, a);
    } else if a.reach < UPLOAD_FINAL {
      EarlyAttemptLeavesFinalObject(digest, s.store, document, a);
    }
  }

  lemma EarlyAttemptLeavesFinalObject(digest: Digest, s: State, document: Row, a: Attempt)
    requires a.reach < UPLOAD_FINAL
    ensures Finalise(digest, s, document, a).finalObject == s.finalObject
  {
    SealingKeepsRest(AfterHash(digest, s, a), WithHash(digest, document, a), a.now, a.x);
  }

  lemma AttemptOutcome(digest: Digest, s: System, c: CallId, a: Attempt)
    requires Enabled(s, TryToFinish(c, a)) && !HasAttempt(s)
    ensures var t := Apply(digest, s, TryToFinish(c, a));
            HasAttempt(t) && (HasSucceeded(t) <==> a.reach >= SAVE_STATUS)
  {
    var t := Apply(digest, s, TryToFinish(c, a));
    assert t.calls[c].phase == Attempted(a.reach);
    forall d | d in t.calls && t.calls[d].phase.Attempted? ensures d == c {
      OnlyAttemptsAttempt(digest, s, TryToFinish(c, a), d);
    }
  }

  lemma OtherStepKeepsSound(digest: Digest, s: System, step: Step)
    requires Sound(digest, s) && Enabled(s, step) && !step.TryToFinish?
    ensures Sound(digest, Apply(digest, s, step))
  {
    StepKeepsCalls(digest, s, step);
    SameAttempts(digest, s, step);
    if step.SaveRejection? {
      assert CallOk(s, s.calls[step.c]);
    }
  }

  lemma {:induction false} RunIsSound(digest: Digest, run: Run)
    requires IsRun(digest, run)
    ensures Sound(digest, Last(digest, run))
  {
    if run.Then? {
      var s := Last(digest, run.before);
      RunIsSound(digest, run.before);
      if run.step.TryToFinish? {
        AttemptKeepsSound(digest, s, run.step.c, run.step.attempt);
      } else {
        OtherStepKeepsSound(digest, s, run.step);
      }
    }
  }

  // ------------------------------------------------------------------------------------------
  // Results over every run.
  // ------------------------------------------------------------------------------------------

  /** However the signers' calls interleave, the document is finished by at most one of them, once. */
  lemma {:induction false} AtMostOneAttempt(digest: Digest, run: Run)
    requires IsRun(digest, run)
    ensures Attempts(run) <= 1
    ensures Attempts(run) == 1 <==> HasAttempt(Last(digest, run))
  {
    if run.Then? {
      var s := Last(digest, run.before);
      AtMostOneAttempt(digest, run.before);
      RunIsSound(digest, run.before);
      if run.step.TryToFinish? {
        FirstAttempt(s, run.step.c);
        AttemptOutcome(digest, s, run.step.c, run.step.attempt);
      } else {
        SameAttempts(digest, s, run.step);
      }
    }
  }

  /**
    In every run, whatever fails or dies: a document that is SIGNED, or waits for its cancellation, is
    whole, and that is the object it is served from.
   */
  lemma FinishedDocumentsAreWhole(digest: Digest, run: Run)
    requires IsRun(digest, run)
    ensures var s := Last(digest, run).store;
            ResolveDocumentBucket(s.row.status, s.row.completedSignersCount) == FINALIZED_DOCUMENTS ==> IsWhole(digest, s)
  {
    RunIsSound(digest, run);
  }

  /** Whatever seals arrived before, the one a sheet prints was not made for another hash. */
  lemma PrintedSealsCoverTheHash(digest: Digest, run: Run)
    requires IsRun(digest, run)
    requires Last(digest, run).store.finalObject.Some?
    requires Last(digest, run).store.finalObject.value.sheet.seal.Some?
    ensures var store := Last(digest, run).store;
            var sheet := store.finalObject.value.sheet;
            sheet.hash.Some? && Covers(sheet.seal.value, sheet.hash.value) && store.seal == sheet.seal
  {
    RunIsSound(digest, run);
  }

  /** If nobody rejects, the document leaves PENDING_SIGNATURE exactly by an attempt that got to its last step. */
  lemma SignedIffAttemptSucceeded(digest: Digest, run: Run)
    requires IsRun(digest, run) && Last(digest, run).rejected == {}
    ensures Last(digest, run).store.row.status != PENDING_SIGNATURE <==> HasSucceeded(Last(digest, run))
  {
    RunIsSound(digest, run);
  }

  /** A finished document has every answer; all of them are signatures exactly if nobody rejected. */
  lemma FinishedMeansEverybodyAnswered(digest: Digest, run: Run)
    requires IsRun(digest, run) && IsFinished(Last(digest, run).store.row.status)
    ensures var s := Last(digest, run); s.pending == {} && (s.signed == s.signers <==> s.rejected == {})
  {
    var s := Last(digest, run);
    RunIsSound(digest, run);
    var c :| c in s.calls && s.calls[c].phase.Attempted?;
    assert CallOk(s, s.calls[c]);
    FinisherIsLast(s, c);
  }

  // ------------------------------------------------------------------------------------------
  // Late seals and the count of signatures.
  // ------------------------------------------------------------------------------------------

  /** Only a marked document is sealed late, and only its mark and its seal can change. */
  lemma LateSealIff(digest: Digest, s: System, now: int, ready: bool, x: Sealing)
    requires s.store.row.status == SIGNED
    ensures var before, after := s.store, Apply(digest, s, SealLater(now, ready, x)).store;
            var due := before.row.sealingPendingAt.Some? && ready;
            && after == before.(row := before.row.(sealingPendingAt := after.row.sealingPendingAt), seal := after.seal)
            && (before.seal.Some? ==> after.seal == before.seal)
            && (before.seal.None? ==> (after.seal.Some? <==> due && AdvancedSealIsMade(x) && IsStored(x.saving)))
            && (after.row.sealingPendingAt.None?
                <==> before.row.sealingPendingAt.None? || (due && !(x.hasAdvanced && x.missingOcsp && !x.markFails)))
  {
  }

  /**
    If anything fails, the comment says, the document stays marked and the next visitor tries again.
    Not so: the mark is cleared before the provider is asked. Exactly when the promise is kept, for a
    marked document without seal:
   */
  lemma FailedLateSealIsRetriedIff(digest: Digest, s: System, now: int, ready: bool, x: Sealing)
    requires s.store.row.status == SIGNED && s.store.row.sealingPendingAt.Some? && s.store.seal.None?
    ensures var after := Apply(digest, s, SealLater(now, ready, x)).store;
            (after.seal.None? ==> after.row.sealingPendingAt.Some?)
            <==> !ready || (AdvancedSealIsMade(x) && IsStored(x.saving)) || (x.hasAdvanced && x.missingOcsp && !x.markFails)
  {
    LateSealIff(digest, s, now, ready, x);
  }

  /** Every signature that is counted writes one more than its call had loaded, and so does the one that finishes. */
  lemma CountIsOneMoreThanLoaded(digest: Digest, s: System, step: Step)
    requires Enabled(s, step)
    requires (step.CountSignature? && step.written) || (step.TryToFinish? && step.attempt.reach >= SAVE_STATUS)
    ensures var after, count := Apply(digest, s, step).store, s.calls[step.c].document.completedSignersCount + 1;
            && after.row.completedSignersCount == count
            && (step.CountSignature? ==> after == s.store.(row := s.store.row.(completedSignersCount := count)))
  {
    if step.TryToFinish? {
      AttemptLeaves(digest, s.store, Counted(s.calls[step.c].document), step.attempt);
    }
  }

  // ------------------------------------------------------------------------------------------
  // When a document can still be finished.
  // ------------------------------------------------------------------------------------------

  ghost predicate HasFinisher(s: System) {
    exists c :: IsIn(s, c, Claimed) && SawNobodyElse(s.calls[c])
  }

  /** No answer is missing, and no call is about to finish the document. */
  ghost predicate IsLost(s: System) {
    && s.pending == {} && !HasFinisher(s)
    && (s.store.row.status == PENDING_SIGNATURE || s.store.row.status == REJECTED)
  }

  lemma StepKeepsLost(digest: Digest, s: System, step: Step)
    requires IsLost(s) && Enabled(s, step)
    ensures !step.TryToFinish? && IsLost(Apply(digest, s, step))
  {
    var t := Apply(digest, s, step);
    forall c | IsIn(t, c, Claimed) && SawNobodyElse(t.calls[c]) ensures IsIn(s, c, Claimed) && SawNobodyElse(s.calls[c]) {
    }
  }

  /** A lost document stays lost, and nobody ever tries to finish it again. */
  lemma {:induction false} LostForEver(digest: Digest, later: Run, run: Run)
    requires IsRun(digest, later) && Extends(later, run)
    ensures IsRun(digest, run)
    ensures IsLost(Last(digest, run)) ==> IsLost(Last(digest, later)) && Attempts(later) == Attempts(run)
  {
    if later != run {
      LostForEver(digest, later.before, run);
      if IsLost(Last(digest, later.before)) {
        StepKeepsLost(digest, Last(digest, later.before), later.step);
      }
    }
  }

  /**
    finalizeSignedDocument leaves the document PENDING_SIGNATURE when it fails, so that finishing could
    be tried again. It cannot: after a failed attempt nobody is left who could start another.
   */
  lemma FailedAttemptIsFinal(digest: Digest, run: Run, later: Run)
    requires IsRun(digest, later) && Extends(later, run)
    ensures IsRun(digest, run)
    ensures HasAttempt(Last(digest, run)) && !HasSucceeded(Last(digest, run)) ==>
              !IsFinished(Last(digest, later).store.row.status) && Attempts(later) == 1
  {
    LostForEver(digest, later, run);
    var s := Last(digest, run);
    if HasAttempt(s) && !HasSucceeded(s) {
      RunIsSound(digest, run);
      AtMostOneAttempt(digest, run);
      FailedIsLost(digest, s);
    }
  }

  lemma FailedIsLost(digest: Digest, s: System)
    requires Sound(digest, s) && HasAttempt(s) && !HasSucceeded(s)
    ensures IsLost(s)
  {
    var c :| c in s.calls && s.calls[c].phase.Attempted?;
    assert CallOk(s, s.calls[c]);
    FinisherIsLast(s, c);
    forall d | IsIn(s, d, Claimed) ensures !SawNobodyElse(s.calls[d]) {
      assert IsFinisher(s.calls[c]) && d != c;
    }
  }

  ghost predicate CanBeSigned(digest: Digest, run: Run) {
    exists later :: Extends(later, run) && EndsSigned(digest, later)
  }

  ghost predicate EndsSigned(digest: Digest, run: Run) {
    IsRun(digest, run) && Last(digest, run).store.row.status == SIGNED
  }

  lemma {:induction false} ExtendsTransitive(a: Run, b: Run, c: Run)
    requires Extends(a, b) && Extends(b, c)
    ensures Extends(a, c)
  {
    if a != b {
      ExtendsTransitive(a.before, b, c);
    }
  }

  lemma {:induction false} FreshId(ids: set<CallId>) returns (c: CallId)
    ensures c !in ids && forall d :: d in ids ==> d < c
  {
    if ids == {} {
      c := 0;
    } else {
      var d :| d in ids;
      var rest := FreshId(ids - {d});
      c := if d >= rest then d + 1 else rest;
      forall e | e in ids ensures e < c {
        assert e == d || e in ids - {d};
      }
    }
  }

  const SMOOTH := Sealing(false, false, false, 0, false, false, Saved, false)

  lemma GoOn(digest: Digest, run: Run, step: Step) returns (later: Run)
    requires IsRun(digest, run) && Enabled(Last(digest, run), step)
    ensures IsRun(digest, later) && Last(digest, later) == Apply(digest, Last(digest, run), step)
    ensures later == Then(run, step) && Extends(later, run)
  {
    later := Then(run, step);
  }

  lemma FinishNow(digest: Digest, run: Run, c: CallId) returns (later: Run)
    requires IsRun(digest, run) && Last(digest, run).store.row.status == PENDING_SIGNATURE
    requires IsIn(Last(digest, run), c, Claimed) && SawNobodyElse(Last(digest, run).calls[c])
    ensures Extends(later, run) && EndsSigned(digest, later)
    ensures Last(digest, later).rejected == Last(digest, run).rejected && Last(digest, later).signed == Last(digest, run).signed
  {
    var a := Attempt("", 0, SMOOTH, SAVE_STATUS);
    RunIsSound(digest, run);
    AttemptKeepsInvariant(digest, Last(digest, run).store, Counted(Last(digest, run).calls[c].document), a);
    later := GoOn(digest, run, TryToFinish(c, a));
  }

  /** One pending signer after the other signs, each seeing the answers before. */
  lemma {:induction false} SignRest(digest: Digest, run: Run) returns (later: Run)
    requires IsRun(digest, run) && Last(digest, run).store.row.status == PENDING_SIGNATURE
    requires Last(digest, run).pending != {}
    ensures Extends(later, run) && EndsSigned(digest, later)
    decreases |Last(digest, run).pending|
  {
    var s := Last(digest, run);
    var p :| p in s.pending;
    var c := FreshId(s.calls.Keys);
    var loaded := GoOn(digest, run, Load(c, p));
    var claimed := GoOn(digest, loaded, Claim(c));
    assert Last(digest, claimed).pending == s.pending - {p};
    if s.pending - {p} == {} {
      assert s.pending == {p};
      later := FinishNow(digest, claimed, c);
    } else {
      later := SignRest(digest, claimed);
    }
    ExtendsTransitive(later, claimed, loaded);
    ExtendsTransitive(later, loaded, run);
  }

  /** Exactly when a document that waits for signatures can still become SIGNED. */
  lemma CanBeSignedIff(digest: Digest, run: Run)
    requires IsRun(digest, run) && Last(digest, run).store.row.status == PENDING_SIGNATURE
    ensures CanBeSigned(digest, run) <==> Last(digest, run).pending != {} || HasFinisher(Last(digest, run))
  {
    var s := Last(digest, run);
    if s.pending != {} {
      var later := SignRest(digest, run);
    } else if HasFinisher(s) {
      var c :| IsIn(s, c, Claimed) && SawNobodyElse(s.calls[c]);
      var later := FinishNow(digest, run, c);
    } else {
      forall later | Extends(later, run) && IsRun(digest, later) ensures !EndsSigned(digest, later) {
        LostForEver(digest, later, run);
      }
    }
  }

  // ------------------------------------------------------------------------------------------
  // When a finished document without seal can still get one.
  // ------------------------------------------------------------------------------------------

  /** No seal is posted in what `later` adds to `run`. */
  predicate NothingPosted(later: Run, run: Run)
    requires Extends(later, run)
  {
    later == run || (!later.step.PostSeal? && NothingPosted(later.before, run))
  }

  /** The document is finished, has no seal, and no visitor will ask for one. */
  ghost predicate IsGivenUp(s: System) {
    HasSucceeded(s) && s.store.seal.None? && (s.store.row.status == SIGNED ==> s.store.row.sealingPendingAt.None?)
  }

  lemma StepKeepsGivenUp(digest: Digest, s: System, step: Step)
    requires Sound(digest, s) && IsGivenUp(s) && Enabled(s, step) && !step.PostSeal?
    ensures IsGivenUp(Apply(digest, s, step))
  {
    if step.TryToFinish? {
      FirstAttempt(s, step.c);
      assert false;
    }
    SameAttempts(digest, s, step);
  }

  lemma {:induction false} GivenUpForEver(digest: Digest, later: Run, run: Run)
    requires IsRun(digest, later) && Extends(later, run) && NothingPosted(later, run)
    ensures IsRun(digest, run)
    ensures IsGivenUp(Last(digest, run)) ==> IsGivenUp(Last(digest, later))
  {
    if later != run {
      GivenUpForEver(digest, later.before, run);
      RunIsSound(digest, later.before);
      if IsGivenUp(Last(digest, later.before)) {
        StepKeepsGivenUp(digest, Last(digest, later.before), later.step);
      }
    }
  }

  ghost predicate CanBeSealedByVisitors(digest: Digest, run: Run) {
    exists later :: Extends(later, run) && NothingPosted(later, run) && EndsSealed(digest, later)
  }

  ghost predicate EndsSealed(digest: Digest, run: Run) {
    IsRun(digest, run) && Last(digest, run).store.seal.Some?
  }

  /** Without anybody posting a seal, a SIGNED document that has none can still get one exactly if it is marked. */
  lemma CanBeSealedIff(digest: Digest, run: Run)
    requires IsRun(digest, run)
    requires Last(digest, run).store.row.status == SIGNED && Last(digest, run).store.seal.None?
    ensures CanBeSealedByVisitors(digest, run) <==> Last(digest, run).store.row.sealingPendingAt.Some?
  {
    RunIsSound(digest, run);
    if Last(digest, run).store.row.sealingPendingAt.Some? {
      var x := Sealing(true, false, false, 0, false, false, Saved, false);
      var later := GoOn(digest, run, SealLater(0, true, x));
      assert NothingPosted(later, run) && EndsSealed(digest, later);
    } else {
      forall later | Extends(later, run) && NothingPosted(later, run) && IsRun(digest, later)
        ensures !EndsSealed(digest, later)
      {
        GivenUpForEver(digest, later, run);
      }
    }
  }

  // ------------------------------------------------------------------------------------------
  // Runs that go wrong.
  // ------------------------------------------------------------------------------------------

  function Opened(signers: set<Signer>): Run {
    var row := Row(PENDING_SIGNATURE, None, None, None, 0);
    Start(System(State(row, None, None, None), signers, signers, {}, {}, map[]))
  }

  lemma OpenedIsRun(digest: Digest, signers: set<Signer>)
    ensures IsRun(digest, Opened(signers)) && Last(digest, Opened(signers)) == Opened(signers).system
  {
  }

  /** A signer loads and claims while nobody else is doing anything. */
  lemma SignAlone(digest: Digest, run: Run, c: CallId, p: Signer) returns (later: Run)
    requires IsRun(digest, run) && Enabled(Last(digest, run), Load(c, p))
    ensures IsRun(digest, later) && Attempts(later) == Attempts(run)
    ensures var (s, t) := (Last(digest, run), Last(digest, later));
            && t == s.(pending := s.pending - {p}, signed := s.signed + {p}, calls := t.calls)
            && t.calls == s.calls[c := Call(p, s.store.row, s.pending, Claimed)]
  {
    var loaded := GoOn(digest, run, Load(c, p));
    later := GoOn(digest, loaded, Claim(c));
  }

  /** The only signer has signed, stamping fails, and the document can never be SIGNED. */
  lemma FailedStampingSticks(digest: Digest) returns (run: Run)
    ensures IsRun(digest, run) && Last(digest, run).signed == Last(digest, run).signers == {1}
    ensures Last(digest, run).store.row.status == PENDING_SIGNATURE && !CanBeSigned(digest, run)
  {
    OpenedIsRun(digest, {1});
    var claimed := SignAlone(digest, Opened({1}), 0, 1);
    run := GoOn(digest, claimed, TryToFinish(0, Attempt("", 0, SMOOTH, 0)));
    assert Last(digest, run).calls.Keys == {0};
    CanBeSignedIff(digest, run);
  }

  /** Two signers load before either claims: each sees the other pending, and nobody finishes the document. */
  lemma BothSawTheOther(digest: Digest) returns (run: Run)
    ensures IsRun(digest, run) && Last(digest, run).signed == Last(digest, run).signers == {1, 2}
    ensures Attempts(run) == 0 && Last(digest, run).store.row.status == PENDING_SIGNATURE && !CanBeSigned(digest, run)
  {
    OpenedIsRun(digest, {1, 2});
    var one := GoOn(digest, Opened({1, 2}), Load(0, 1));
    var two := GoOn(digest, one, Load(1, 2));
    var first := GoOn(digest, two, Claim(0));
    run := GoOn(digest, first, Claim(1));
    var s := Last(digest, run);
    assert 2 in s.calls[0].seen && 1 in s.calls[1].seen && s.calls.Keys == {0, 1};
    CanBeSignedIff(digest, run);
  }

  /** The same two signers: both are counted, and the document shows one signature. */
  lemma CountLosesASignature(digest: Digest) returns (run: Run)
    ensures IsRun(digest, run) && Last(digest, run).signed == {1, 2}
    ensures Last(digest, run).store.row.completedSignersCount == 1
  {
    OpenedIsRun(digest, {1, 2});
    var one := GoOn(digest, Opened({1, 2}), Load(0, 1));
    var two := GoOn(digest, one, Load(1, 2));
    var first := GoOn(digest, two, Claim(0));
    var second := GoOn(digest, first, Claim(1));
    assert 2 in Last(digest, second).calls[0].seen && 1 in Last(digest, second).calls[1].seen;
    var counted := GoOn(digest, second, CountSignature(0, true));
    run := GoOn(digest, counted, CountSignature(1, true));
  }

  /** A signer rejects; before the document is marked, the other one signs, sees nobody pending, and finishes it. */
  lemma SignedOverARejection(digest: Digest) returns (run: Run)
    ensures IsRun(digest, run) && Last(digest, run).store.row.status == SIGNED
    ensures Last(digest, run).rejected == {1} && Last(digest, run).signed == {2}
  {
    OpenedIsRun(digest, {1, 2});
    var loaded := GoOn(digest, Opened({1, 2}), Load(0, 1));
    var rejecting := GoOn(digest, loaded, ClaimRejection(0));
    var claimed := SignAlone(digest, rejecting, 1, 2);
    run := FinishNow(digest, claimed, 1);
  }
}
