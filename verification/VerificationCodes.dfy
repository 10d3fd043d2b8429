/**
  One-time codes: issue, verifyAndConsume, hasConsumedCode and findConsumedCode
  (src/document/verification-code.service.ts), first one call at a time and then with any number of
  verifications interleaved, some of them inside a transaction of their caller.
 */
module VerificationCodes {
  import opened Wrappers

  const CODE_VALIDITY_MS := 15 * 60 * 1000

  datatype Event =
    | SIGN_DOCUMENT | REJECT_DOCUMENT | CANCEL_DOCUMENT | GUEST_BIOMETRIC_ACCESS | GUEST_ADVANCED_SIGNATURE_ACCESS
    | PUBLIC_SIGNING_ACCESS

  type CodeId = nat

  /** `usedAt` is Some exactly when is_used is true: both columns are written by one UPDATE. */
  datatype Code = Code(documentId: string, signerId: Option<string>, event: Event, code: string, createdAt: int,
                       expiredAt: int, usedAt: Option<int>)

  type Codes = map<CodeId, Code>

  datatype Request = Request(documentId: string, signerId: Option<string>, submitted: string, event: Option<Event>)

  datatype Refusal = NoPendingCode | Expired | Invalid | AlreadyUsed

  function NewCode(documentId: string, signerId: Option<string>, event: Event, code: string, now: int): Code {
    Code(documentId, signerId, event, code, now, now + CODE_VALIDITY_MS, None)
  }

  /** The row is one the request may consume: same document and signer, and the event if one is given. */
  predicate Concerns(r: Request, c: Code) {
    && c.documentId == r.documentId && c.signerId == r.signerId
    && (r.event.Some? ==> c.event == r.event.value)
  }

  predicate IsCandidate(codes: Codes, r: Request, id: CodeId) {
    id in codes && Concerns(r, codes[id]) && codes[id].usedAt.None?
  }

  /** A legal answer to findOne({ where: …, isUsed: false, order: { createdAt: 'DESC' } }). */
  ghost predicate IsLatest(codes: Codes, r: Request, record: Option<CodeId>) {
    match record
    case None => forall id :: !IsCandidate(codes, r, id)
    case Some(found) =>
      && IsCandidate(codes, r, found)
      && forall id :: IsCandidate(codes, r, id) ==> codes[id].createdAt <= codes[found].createdAt
  }

  /** The checks before the update. */
  function CheckRecord(codes: Codes, r: Request, record: Option<CodeId>, now: int): Option<Refusal>
    requires record.Some? ==> record.value in codes
  {
    if record.None? then Some(NoPendingCode)
    else if codes[record.value].expiredAt < now then Some(Expired)
    else if codes[record.value].code != r.submitted then Some(Invalid)
    else None
  }

  // ------------------------------------------------------------------------------------------
  // Any number of verifications.
  // ------------------------------------------------------------------------------------------

  type CallId = nat

  /** `at` is when the code was checked. */
  datatype Phase =
    | Checked(id: CodeId, at: int)
    | Staged(id: CodeId, at: int, usedAt: int)
    | Consumed(id: CodeId, at: int)
    | Refused

  datatype Call = Call(request: Request, phase: Phase)

  datatype State = State(codes: Codes, calls: map<CallId, Call>)

  /** An update in a transaction is staged until its caller commits or rolls back. */
  datatype Step =
    | Issue(id: CodeId, code: Code)
    | Find(c: CallId, request: Request, record: Option<CodeId>, now: int)
    | Update(c: CallId, inTransaction: bool, now: int)
    | Commit(c: CallId)
    | RollBack(c: CallId)

  predicate Holds(call: Call, id: CodeId) {
    call.phase.Staged? && call.phase.id == id
  }

  ghost predicate Enabled(s: State, step: Step) {
    match step
    case Issue(id, code) => id !in s.codes && code.usedAt.None?
    case Find(c, request, record, _) => c !in s.calls && IsLatest(s.codes, request, record)
    // A row locked by an open transaction makes the update wait.
    case Update(c, _, _) =>
      c in s.calls && s.calls[c].phase.Checked? && forall d :: d in s.calls ==> !Holds(s.calls[d], s.calls[c].phase.id)
    case Commit(c) => c in s.calls && s.calls[c].phase.Staged?
    case RollBack(c) => c in s.calls && s.calls[c].phase.Staged?
  }

  function MarkUsed(codes: Codes, id: CodeId, now: int): Codes {
    if id in codes then codes[id := codes[id].(usedAt := Some(now))] else codes
  }

  /** UPDATE … WHERE id AND is_used = false: a row that is gone or used makes `affected` 0. */
  function ApplyUpdate(s: State, c: CallId, inTransaction: bool, now: int): State
    requires c in s.calls && s.calls[c].phase.Checked?
  {
    var Call(request, Checked(id, at)) := s.calls[c];
    if id !in s.codes || s.codes[id].usedAt.Some? then s.(calls := s.calls[c := Call(request, Refused)])
    else if inTransaction then s.(calls := s.calls[c := Call(request, Staged(id, at, now))])
    else State(MarkUsed(s.codes, id, now), s.calls[c := Call(request, Consumed(id, at))])
  }

  ghost function Apply(s: State, step: Step): State
    requires Enabled(s, step)
  {
    match step
    case Issue(id, code) => s.(codes := s.codes[id := code])
    case Find(c, request, record, now) =>
      var phase := if CheckRecord(s.codes, request, record, now).Some? then Refused else Checked(record.value, now);
      s.(calls := s.calls[c := Call(request, phase)])
    case Update(c, inTransaction, now) => ApplyUpdate(s, c, inTransaction, now)
    case Commit(c) =>
      var Call(request, Staged(id, at, now)) := s.calls[c];
      State(MarkUsed(s.codes, id, now), s.calls[c := Call(request, Consumed(id, at))])
    case RollBack(c) => s.(calls := s.calls[c := s.calls[c].(phase := Refused)])
  }

  /** What was checked about row `id` at time `at`. */
  predicate WasChecked(codes: Codes, r: Request, id: CodeId, at: int) {
    id in codes && Concerns(r, codes[id]) && codes[id].code == r.submitted && at <= codes[id].expiredAt
  }

  predicate IsSound(s: State, c: CallId)
    requires c in s.calls
  {
    var Call(request, phase) := s.calls[c];
    match phase
    case Checked(id, at) => WasChecked(s.codes, request, id, at)
    case Staged(id, at, _) => WasChecked(s.codes, request, id, at) && s.codes[id].usedAt.None?
    case Consumed(id, at) => WasChecked(s.codes, request, id, at) && s.codes[id].usedAt.Some?
    case Refused => true
  }

  predicate Takes(call: Call, id: CodeId) {
    (call.phase.Staged? || call.phase.Consumed?) && call.phase.id == id
  }

  predicate HasConsumed(call: Call, id: CodeId) {
    call.phase.Consumed? && call.phase.id == id
  }

  ghost predicate ConsumedBySome(s: State, id: CodeId) {
    exists c :: c in s.calls && HasConsumed(s.calls[c], id)
  }

  ghost predicate Invariant(s: State) {
    && (forall c :: c in s.calls ==> IsSound(s, c))
    && OneTakerEach(s)
    && (forall id :: id in s.codes && s.codes[id].usedAt.Some? ==> ConsumedBySome(s, id))
  }

  ghost predicate OneTakerEach(s: State) {
    forall c, d, id :: c in s.calls && d in s.calls && Takes(s.calls[c], id) && Takes(s.calls[d], id) ==> c == d
  }

  lemma FindKeepsInvariant(s: State, step: Step)
    requires Invariant(s) && Enabled(s, step) && step.Find?
    ensures Invariant(Apply(s, step))
  {
    var t := Apply(s, step);
    forall d | d in t.calls ensures IsSound(t, d) {
      if d != step.c {
        assert IsSound(s, d);
      }
    }
    forall id | id in t.codes && t.codes[id].usedAt.Some? ensures ConsumedBySome(t, id) {
      ConsumerStays(s, t, id);
    }
  }

  lemma ConsumerStays(s: State, t: State, id: CodeId)
    requires ConsumedBySome(s, id)
    requires forall c :: c in s.calls && s.calls[c].phase.Consumed? ==> c in t.calls && t.calls[c] == s.calls[c]
    ensures ConsumedBySome(t, id)
  {
    var c :| c in s.calls && HasConsumed(s.calls[c], id);
    assert HasConsumed(t.calls[c], id);
  }

  lemma IssueKeepsInvariant(s: State, step: Step)
    requires Invariant(s) && Enabled(s, step) && step.Issue?
    ensures Invariant(Apply(s, step))
  {
    var t := Apply(s, step);
    forall d | d in t.calls ensures IsSound(t, d) {
      assert IsSound(s, d);
    }
    forall id | id in t.codes && t.codes[id].usedAt.Some? ensures ConsumedBySome(t, id) {
      ConsumerStays(s, t, id);
    }
  }

  lemma UpdateKeepsSound(s: State, step: Step, d: CallId)
    requires Invariant(s) && Enabled(s, step) && step.Update? && d in s.calls
    ensures d in Apply(s, step).calls && IsSound(Apply(s, step), d)
  {
    assert IsSound(s, step.c) && IsSound(s, d);
    assert !Holds(s.calls[d], s.calls[step.c].phase.id);
  }

  lemma UpdateKeepsInvariant(s: State, step: Step)
    requires Invariant(s) && Enabled(s, step) && step.Update?
    ensures Invariant(Apply(s, step))
  {
    var t := Apply(s, step);
    assert IsSound(s, step.c);
    var id := s.calls[step.c].phase.id;
    forall d | d in t.calls ensures IsSound(t, d) {
      UpdateKeepsSound(s, step, d);
    }
    if s.codes[id].usedAt.None? {
      forall d | d in s.calls ensures !Takes(s.calls[d], id) {
        assert IsSound(s, d) && !Holds(s.calls[d], id);
      }
    }
    forall i | i in t.codes && t.codes[i].usedAt.Some? ensures ConsumedBySome(t, i) {
      if s.codes[i].usedAt.Some? {
        ConsumerStays(s, t, i);
      } else {
        assert HasConsumed(t.calls[step.c], i);
      }
    }
  }

  lemma EndKeepsSound(s: State, step: Step, d: CallId)
    requires Invariant(s) && Enabled(s, step) && (step.Commit? || step.RollBack?) && d in s.calls
    ensures d in Apply(s, step).calls && IsSound(Apply(s, step), d)
  {
    assert IsSound(s, step.c) && IsSound(s, d);
    var id := s.calls[step.c].phase.id;
    assert Takes(s.calls[step.c], id);
    assert d != step.c ==> !Takes(s.calls[d], id);
  }

  lemma EndKeepsInvariant(s: State, step: Step)
    requires Invariant(s) && Enabled(s, step) && (step.Commit? || step.RollBack?)
    ensures Invariant(Apply(s, step))
  {
    var t := Apply(s, step);
    assert IsSound(s, step.c);
    forall d | d in t.calls ensures IsSound(t, d) {
      EndKeepsSound(s, step, d);
    }
    forall d, e, id | d in t.calls && e in t.calls && Takes(t.calls[d], id) && Takes(t.calls[e], id) ensures d == e {
      assert Takes(s.calls[d], id) && Takes(s.calls[e], id);
    }
    forall i | i in t.codes && t.codes[i].usedAt.Some? ensures ConsumedBySome(t, i) {
      if s.codes[i].usedAt.Some? {
        ConsumerStays(s, t, i);
      } else {
        assert HasConsumed(t.calls[step.c], i);
      }
    }
  }

  /** Every step keeps the correspondence between used rows and successful calls. */
  lemma StepKeepsInvariant(s: State, step: Step)
    requires Invariant(s) && Enabled(s, step)
    ensures Invariant(Apply(s, step))
  {
    match step
    case Issue(_, _) => IssueKeepsInvariant(s, step);
    case Find(_, _, _, _) => FindKeepsInvariant(s, step);
    case Update(_, _, _) => UpdateKeepsInvariant(s, step);
    case Commit(_) => EndKeepsInvariant(s, step);
    case RollBack(_) => EndKeepsInvariant(s, step);
  }

  datatype Run = Start | Then(before: Run, step: Step)

  ghost predicate IsRun(run: Run)
    decreases run, 0
  {
    run.Then? ==> IsRun(run.before) && Enabled(Last(run.before), run.step)
  }

  ghost function Last(run: Run): State
    requires IsRun(run)
    decreases run, 1
  {
    if run.Start? then State(map[], map[]) else Apply(Last(run.before), run.step)
  }

  lemma {:induction false} RunKeepsInvariant(run: Run)
    requires IsRun(run)
    ensures Invariant(Last(run))
  {
    if run.Then? {
      RunKeepsInvariant(run.before);
      StepKeepsInvariant(Last(run.before), run.step);
    }
  }

  /** However the calls interleave, no code is consumed by two of them. */
  lemma ConsumedAtMostOnce(run: Run, c: CallId, d: CallId, id: CodeId)
    requires IsRun(run) && c in Last(run).calls && d in Last(run).calls
    requires HasConsumed(Last(run).calls[c], id) && HasConsumed(Last(run).calls[d], id)
    ensures c == d
  {
    RunKeepsInvariant(run);
    assert Takes(Last(run).calls[c], id) && Takes(Last(run).calls[d], id);
  }

  /**
    A call that succeeds has consumed a row of its document and signer, of its event if it named
    one, with the submitted code, which had not expired when it was checked.
   */
  lemma OnlyMatchingCodesAreConsumed(run: Run, c: CallId, id: CodeId)
    requires IsRun(run) && c in Last(run).calls && HasConsumed(Last(run).calls[c], id)
    ensures WasChecked(Last(run).codes, Last(run).calls[c].request, id, Last(run).calls[c].phase.at)
    ensures Last(run).codes[id].usedAt.Some?
  {
    RunKeepsInvariant(run);
    assert IsSound(Last(run), c);
  }

  /** A row is used if and only if some call succeeded with it: a call that is rolled back uses nothing up. */
  lemma UsedIffConsumed(run: Run, id: CodeId)
    requires IsRun(run) && id in Last(run).codes
    ensures Last(run).codes[id].usedAt.Some? <==> ConsumedBySome(Last(run), id)
  {
    RunKeepsInvariant(run);
    if c :| c in Last(run).calls && HasConsumed(Last(run).calls[c], id) {
      assert IsSound(Last(run), c);
    }
  }

  // ------------------------------------------------------------------------------------------
  // The lookups.
  // ------------------------------------------------------------------------------------------

  predicate IsConsumedFor(codes: Codes, documentId: string, signerId: string, event: Event, id: CodeId) {
    && id in codes && codes[id].documentId == documentId && codes[id].signerId == Some(signerId)
    && codes[id].event == event && codes[id].usedAt.Some?
  }

  predicate HasConsumedCode(codes: Codes, documentId: string, signerId: string, event: Event) {
    exists id :: id in codes && IsConsumedFor(codes, documentId, signerId, event, id)
  }

  /** Signing may go on exactly when some verification consumed a code for that document, signer and event. */
  lemma HasConsumedCodeIff(run: Run, documentId: string, signerId: string, event: Event)
    requires IsRun(run)
    ensures HasConsumedCode(Last(run).codes, documentId, signerId, event)
       <==> exists c, id :: ConsumedFor(Last(run), documentId, signerId, event, c, id)
  {
    RunKeepsInvariant(run);
    var s := Last(run);
    forall id | IsConsumedFor(s.codes, documentId, signerId, event, id)
      ensures exists c :: ConsumedFor(s, documentId, signerId, event, c, id)
    {
      UsedIffConsumed(run, id);
      var c :| c in s.calls && HasConsumed(s.calls[c], id);
      assert IsSound(s, c);
      assert ConsumedFor(s, documentId, signerId, event, c, id);
    }
    forall c, id | ConsumedFor(s, documentId, signerId, event, c, id)
      ensures IsConsumedFor(s.codes, documentId, signerId, event, id)
    {
      assert IsSound(s, c);
    }
  }

  /** Call `c` succeeded for that document and signer, with a row of that event. */
  predicate ConsumedFor(s: State, documentId: string, signerId: string, event: Event, c: CallId, id: CodeId) {
    && c in s.calls && HasConsumed(s.calls[c], id)
    && s.calls[c].request.documentId == documentId && s.calls[c].request.signerId == Some(signerId)
    && id in s.codes && s.codes[id].event == event
  }

  /** A legal answer to findOne({ where: …, isUsed: true, order: { usedAt: 'DESC' } }). */
  ghost predicate IsLatestConsumed(codes: Codes, documentId: string, signerId: string, event: Event, record: Option<CodeId>) {
    match record
    case None => !HasConsumedCode(codes, documentId, signerId, event)
    case Some(found) =>
      && IsConsumedFor(codes, documentId, signerId, event, found)
      && forall id :: IsConsumedFor(codes, documentId, signerId, event, id) ==>
           codes[id].usedAt.value <= codes[found].usedAt.value
  }

  // ------------------------------------------------------------------------------------------
  // The service.
  // ------------------------------------------------------------------------------------------

  class VerificationCodeService {
    var codes: Codes

    constructor ()
      ensures codes == map[]
    {
      codes := map[];
    }

    /** `id` is the uuid the database generates, `code` what the OTP service made. */
    method IssueCode(id: CodeId, documentId: string, signerId: Option<string>, event: Event, code: string, now: int)
      requires id !in codes
      modifies this
      ensures codes == old(codes)[id := NewCode(documentId, signerId, event, code, now)]
      ensures codes[id] == Code(documentId, signerId, event, code, now, now + 900000, None)
    {
      var expiredAt := now + CODE_VALIDITY_MS;
      codes := codes[id := Code(documentId, signerId, event, code, now, expiredAt, None)];
    }

    /** `record` is what the database finds. A refusal changes nothing; a success uses up that one row. */
    method VerifyAndConsume(request: Request, record: Option<CodeId>, now: int) returns (result: Result<CodeId, Refusal>)
      requires IsLatest(codes, request, record)
      modifies this
      ensures match CheckRecord(old(codes), request, record, now)
              case Some(reason) => result == Failure(reason) && codes == old(codes)
              case None => result == Success(record.value) && codes == MarkUsed(old(codes), record.value, now)
      ensures result.Success? <==>
        record.Some? && now <= old(codes)[record.value].expiredAt && old(codes)[record.value].code == request.submitted
      ensures record.Some? && old(codes)[record.value].expiredAt < now ==> result == Failure(Expired)
      ensures record.Some? && now <= old(codes)[record.value].expiredAt && old(codes)[record.value].code != request.submitted ==>
        result == Failure(Invalid)
      ensures result.Success? ==>
        var row := old(codes)[record.value];
        && row.documentId == request.documentId && row.signerId == request.signerId && row.usedAt.None?
        && (request.event.Some? ==> row.event == request.event.value)
        && codes == old(codes)[record.value := row.(usedAt := Some(now))]
    {
      if record.None? {
        return Failure(NoPendingCode);
      }
      var id := record.value;
      if codes[id].expiredAt < now {
        return Failure(Expired);
      }
      if codes[id].code != request.submitted {
        return Failure(Invalid);
      }
      if codes[id].usedAt.Some? {
        return Failure(AlreadyUsed);
      }
      codes := codes[id := codes[id].(usedAt := Some(now))];
      return Success(id);
    }

    method FindConsumedCode(documentId: string, signerId: string, event: Event, record: Option<CodeId>)
      returns (code: Option<string>)
      requires IsLatestConsumed(codes, documentId, signerId, event, record)
      ensures code.Some? <==> HasConsumedCode(codes, documentId, signerId, event)
      ensures code.Some? ==> exists id :: IsLatestConsumed(codes, documentId, signerId, event, Some(id)) && codes[id].code == code.value
    {
      code := if record.None? then None else Some(codes[record.value].code);
    }
  }

  /** The code just issued is the one a later request of its signer finds. */
  lemma FreshCodeIsLatest(codes: Codes, id: CodeId, c: Code, request: Request, issued: Codes)
    requires id !in codes && c.usedAt.None? && Concerns(request, c) && issued == codes[id := c]
    requires forall x :: IsCandidate(codes, request, x) ==> codes[x].createdAt < c.createdAt
    ensures forall record :: IsLatest(issued, request, record) <==> record == Some(id)
  {
    assert IsCandidate(issued, request, id);
    forall x | IsCandidate(issued, request, x) && x != id ensures issued[x].createdAt < c.createdAt {
      assert IsCandidate(codes, request, x);
    }
  }

  /**
    A fresh code is good for fifteen minutes, to the millisecond, and once only, whatever older codes
    there are. `again` is what the database finds when the same code is sent a second time.
   */
  method IssueThenVerifyTwice(service: VerificationCodeService, id: CodeId, documentId: string, signerId: Option<string>,
                              event: Event, code: string, issuedAt: int, now: int, again: Option<CodeId>)
    returns (first: bool, second: Option<CodeId>)
    requires id !in service.codes
    requires var request := Request(documentId, signerId, code, Some(event));
             && (forall x :: IsCandidate(service.codes, request, x) ==> service.codes[x].createdAt < issuedAt)
             && IsLatest(MarkUsed(service.codes[id := NewCode(documentId, signerId, event, code, issuedAt)], id, now),
                         request, again)
    modifies service
    ensures first <==> now <= issuedAt + 900000
    ensures first ==> second != Some(id)
    ensures first && (forall x :: !IsCandidate(old(service.codes), Request(documentId, signerId, code, Some(event)), x)) ==>
              second == None
  {
    var request := Request(documentId, signerId, code, Some(event));
    service.IssueCode(id, documentId, signerId, event, code, issuedAt);
    FreshCodeIsLatest(old(service.codes), id, NewCode(documentId, signerId, event, code, issuedAt), request, service.codes);
    var result := service.VerifyAndConsume(request, Some(id), now);
    first, second := result.Success?, None;
    if first {
      var repeated := service.VerifyAndConsume(request, again, now);
      if repeated.Success? {
        assert again.value != id && IsCandidate(old(service.codes), request, again.value);
        second := Some(repeated.value);
      }
    }
  }

  // ------------------------------------------------------------------------------------------
  // Which event a request consumes.
  // ------------------------------------------------------------------------------------------

  /** Row `id` is found for the request at `now` and passes every check before the update. */
  ghost predicate Passes(codes: Codes, r: Request, id: CodeId, now: int) {
    IsLatest(codes, r, Some(id)) && CheckRecord(codes, r, Some(id), now).None?
  }

  ghost predicate ConsumesOnly(r: Request, event: Event) {
    forall codes: Codes, id: CodeId, now: int :: Passes(codes, r, id, now) ==> codes[id].event == event
  }

  lemma LoneCodePasses(r: Request, event: Event)
    requires r.event.Some? ==> r.event.value == event
    ensures Passes(map[1 := NewCode(r.documentId, r.signerId, event, r.submitted, 0)], r, 1, 0)
  {
    var codes := map[1 := NewCode(r.documentId, r.signerId, event, r.submitted, 0)];
    assert IsCandidate(codes, r, 1);
  }

  /** A request is safe from the codes of other events if and only if it names its own. */
  lemma ConsumesOnlyIff(r: Request, event: Event)
    ensures ConsumesOnly(r, event) <==> r.event == Some(event)
  {
    if r.event != Some(event) {
      var other := if r.event.Some? then r.event.value else if event == SIGN_DOCUMENT then PUBLIC_SIGNING_ACCESS else SIGN_DOCUMENT;
      LoneCodePasses(r, other);
    }
  }

  /**
    The endpoint that verifies a document's code names no event. While a signer's code for opening a
    public session is newer than their code for signing, it consumes the former in place of the latter.
   */
  lemma AnyEventIsConsumed(documentId: string, signerId: string, toSign: string, toOpen: string)
    returns (codes: Codes, request: Request)
    ensures request == Request(documentId, Some(signerId), toOpen, None)
    ensures codes == map[1 := NewCode(documentId, Some(signerId), SIGN_DOCUMENT, toSign, 0),
                         2 := NewCode(documentId, Some(signerId), PUBLIC_SIGNING_ACCESS, toOpen, 5)]
    ensures Passes(codes, request, 2, 10)
    ensures toSign != toOpen ==> CheckRecord(codes, request.(submitted := toSign), Some(2), 10) == Some(Invalid)
  {
    codes := map[1 := NewCode(documentId, Some(signerId), SIGN_DOCUMENT, toSign, 0),
                 2 := NewCode(documentId, Some(signerId), PUBLIC_SIGNING_ACCESS, toOpen, 5)];
    request := Request(documentId, Some(signerId), toOpen, None);
    assert IsCandidate(codes, request, 2);
  }
}
