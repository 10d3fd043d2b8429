/**
  Idempotent consumption (src/event/idempotency.service.ts, `once` in
  src/kafka/document-events.controller.ts): a mark in `processed_events`, claimed before the work.
 */
module Idempotency {
  import opened Wrappers
  import opened Collections

  /** A claim is made for an event and a consumer; events of the direct path carry no id. */
  datatype Key = Key(eventId: Option<string>, consumer: string)

  /** Without an id (missing or empty) there is nothing to deduplicate by. */
  predicate HasId(k: Key) {
    k.eventId.Some? && k.eventId.value != ""
  }

  class IdempotencyService {
    var processed: set<Key>

    constructor ()
      ensures processed == {}
    {
      processed := {};
    }

    /** `INSERT … ON CONFLICT DO NOTHING`: only the insertion that wins the primary key inserts a row. */
    method Claim(k: Key, databaseFails: bool) returns (claimed: bool)
      modifies this
      ensures !HasId(k) || databaseFails ==> claimed && processed == old(processed)
      ensures HasId(k) && !databaseFails ==> (claimed <==> k !in old(processed)) && processed == old(processed) + {k}
    {
      if !HasId(k) {
        return true;
      }
      if databaseFails {
        return true;
      }
      var inserted := if k in processed then 0 else 1;
      processed := processed + {k};
      return inserted > 0;
    }

    method Release(k: Key, databaseFails: bool)
      modifies this
      ensures processed == if HasId(k) && !databaseFails then old(processed) - {k} else old(processed)
    {
      if !HasId(k) {
        return;
      }
      if !databaseFails {
        processed := processed - {k};
      }
    }

    /** `once`: the handler starts only if the claim succeeded. */
    method Once(k: Key, databaseFails: bool) returns (handlerStarted: bool)
      modifies this
      ensures !HasId(k) || databaseFails ==> handlerStarted
      ensures HasId(k) && !databaseFails ==> (handlerStarted <==> k !in old(processed)) && k in processed
      ensures k.eventId.Some? && k.eventId.value != "" && k in old(processed) && !databaseFails ==> !handlerStarted
      ensures k.eventId.None? || k.eventId == Some("") ==> handlerStarted && processed == old(processed)
      ensures forall other :: other != k ==> (other in processed <==> other in old(processed))
    {
      var claimed := Claim(k, databaseFails);
      if !claimed {
        return false;
      }
      return true;
    }
  }

  // ------------------------------------------------------------------------------------------
  // Any number of consumer instances, with redelivery, failures and crashes.
  // ------------------------------------------------------------------------------------------

  type Delivery = nat

  datatype Phase = Received(key: Key) | Working(key: Key) | Releasing(key: Key)

  /** Tallies per key, besides the marks and the deliveries in flight. */
  datatype State = State(marks: set<Key>, inFlight: map<Delivery, Phase>,
                         inserted: multiset<Key>, deleted: multiset<Key>, errors: multiset<Key>,
                         started: multiset<Key>, succeeded: multiset<Key>, released: multiset<Key>)

  datatype Step =
    | Deliver(d: Delivery, key: Key)
    | Claim(d: Delivery)
    | ClaimError(d: Delivery, wroteMark: bool)
    | Succeed(d: Delivery)
    | Fail(d: Delivery)
    | Release(d: Delivery, deletes: bool)
    | Crash(d: Delivery)

  const INITIAL := State({}, map[], multiset{}, multiset{}, multiset{}, multiset{}, multiset{}, multiset{})

  predicate Enabled(s: State, step: Step) {
    match step
    case Deliver(d, _) => d !in s.inFlight
    case Claim(d) => d in s.inFlight && s.inFlight[d].Received?
    // An error reaches the caller although the mark may have been written.
    case ClaimError(d, wroteMark) =>
      d in s.inFlight && s.inFlight[d].Received? && HasId(s.inFlight[d].key)
      && (wroteMark ==> s.inFlight[d].key !in s.marks)
    case Succeed(d) => d in s.inFlight && s.inFlight[d].Working?
    case Fail(d) => d in s.inFlight && s.inFlight[d].Working?
    case Release(d, _) => d in s.inFlight && s.inFlight[d].Releasing?
    case Crash(d) => d in s.inFlight
  }

  function Apply(s: State, step: Step): State
    requires Enabled(s, step)
  {
    match step
    case Deliver(d, key) => s.(inFlight := s.inFlight[d := Received(key)])
    case Claim(d) =>
      var k := s.inFlight[d].key;
      if !HasId(k) then
        s.(inFlight := s.inFlight[d := Working(k)], started := s.started + multiset{k})
      else if k in s.marks then
        s.(inFlight := s.inFlight - {d})
      else
        s.(marks := s.marks + {k}, inserted := s.inserted + multiset{k},
           inFlight := s.inFlight[d := Working(k)], started := s.started + multiset{k})
    case ClaimError(d, wroteMark) =>
      var k := s.inFlight[d].key;
      s.(marks := if wroteMark then s.marks + {k} else s.marks,
         inserted := if wroteMark then s.inserted + multiset{k} else s.inserted,
         errors := s.errors + multiset{k},
         inFlight := s.inFlight[d := Working(k)], started := s.started + multiset{k})
    case Succeed(d) => s.(inFlight := s.inFlight - {d}, succeeded := s.succeeded + multiset{s.inFlight[d].key})
    case Fail(d) => s.(inFlight := s.inFlight[d := Releasing(s.inFlight[d].key)])
    case Release(d, deletes) =>
      var k := s.inFlight[d].key;
      s.(inFlight := s.inFlight - {d}, released := s.released + multiset{k},
         marks := if deletes then s.marks - {k} else s.marks,
         deleted := if deletes && k in s.marks then s.deleted + multiset{k} else s.deleted)
    // `once` never releases: a failed handler ends like a crash, with its mark in place.
    case Crash(d) => s.(inFlight := s.inFlight - {d})
  }

  ghost predicate IsRun(run: seq<State>, steps: seq<Step>) {
    && |run| == |steps| + 1 && run[0] == INITIAL
    && forall i :: 0 <= i < |steps| ==> Enabled(run[i], steps[i]) && run[i + 1] == Apply(run[i], steps[i])
  }

  /** The deliveries that have started the handler and are not finished with it. */
  function InHand(s: State, k: Key): set<Delivery> {
    set d | d in s.inFlight && !s.inFlight[d].Received? && s.inFlight[d].key == k
  }

  /** The balance of one key: marks are conserved, and every start is paid by a mark or an error. */
  predicate Balanced(s: State, k: Key) {
    && s.inserted[k] == s.deleted[k] + (if k in s.marks then 1 else 0)
    && s.deleted[k] <= s.released[k]
    && s.started[k] <= s.inserted[k] + s.errors[k]
    && s.succeeded[k] + s.released[k] + |InHand(s, k)| <= s.started[k]
  }

  lemma InHandAfter(s: State, step: Step, k: Key)
    requires Enabled(s, step) && !step.Deliver?
    ensures InHand(Apply(s, step), k) <= InHand(s, k) + {step.d}
    ensures Apply(s, step).started[k] == s.started[k] ==> InHand(Apply(s, step), k) <= InHand(s, k)
    ensures step.d !in Apply(s, step).inFlight ==> InHand(Apply(s, step), k) == InHand(s, k) - {step.d}
  {
  }

  lemma InHandSize(s: State, step: Step, k: Key)
    requires Enabled(s, step)
    ensures |InHand(Apply(s, step), k)| <= |InHand(s, k)| + Apply(s, step).started[k] - s.started[k]
    ensures step.Succeed? || step.Release? ==>
      |InHand(Apply(s, step), k)| == |InHand(s, k)| - if s.inFlight[step.d].key == k then 1 else 0
  {
    var t := Apply(s, step);
    if step.Deliver? {
      assert InHand(t, k) == InHand(s, k);
    } else {
      InHandAfter(s, step, k);
      if step.Succeed? || step.Release? {
        if s.inFlight[step.d].key == k {
          assert step.d in InHand(s, k);
        } else {
          assert step.d !in InHand(s, k);
          assert InHand(t, k) == InHand(s, k);
        }
      } else if t.started[k] == s.started[k] {
        SubsetIsSmaller(InHand(t, k), InHand(s, k));
      } else {
        SubsetIsSmaller(InHand(t, k), InHand(s, k) + {step.d});
      }
    }
  }

  lemma StepKeepsBalance(s: State, step: Step, k: Key)
    requires HasId(k) && Enabled(s, step) && Balanced(s, k)
    ensures Balanced(Apply(s, step), k)
  {
    InHandSize(s, step, k);
  }

  lemma {:induction false} ReachableIsBalanced(run: seq<State>, steps: seq<Step>, i: nat, k: Key)
    requires IsRun(run, steps) && i < |run| && HasId(k)
    ensures Balanced(run[i], k)
  {
    if i > 0 {
      ReachableIsBalanced(run, steps, i - 1, k);
      StepKeepsBalance(run[i - 1], steps[i - 1], k);
    } else {
      assert InHand(INITIAL, k) == {};
    }
  }

  /** The handler starts at most once, plus once per release and once per database error while claiming. */
  lemma StartsAreBounded(run: seq<State>, steps: seq<Step>, i: nat, k: Key)
    requires IsRun(run, steps) && i < |run| && HasId(k)
    ensures run[i].started[k] <= 1 + run[i].released[k] + run[i].errors[k]
  {
    ReachableIsBalanced(run, steps, i, k);
  }

  /** However often it is retried, the work succeeds at most once, plus once per database error while claiming. */
  lemma SuccessAtMostOnce(run: seq<State>, steps: seq<Step>, i: nat, k: Key)
    requires IsRun(run, steps) && i < |run| && k.eventId.Some? && k.eventId.value != ""
    ensures run[i].succeeded[k] <= 1 + run[i].errors[k]
  {
    ReachableIsBalanced(run, steps, i, k);
  }

  /** `once`, which never releases: at most one start over any number of deliveries and instances. */
  lemma OnceStartsAtMostOnce(run: seq<State>, steps: seq<Step>, i: nat, k: Key)
    requires IsRun(run, steps) && i < |run| && k.eventId.Some? && k.eventId.value != ""
    requires run[i].errors[k] == 0
    requires forall j :: 0 <= j < |steps| ==> !steps[j].Release?
    ensures run[i].started[k] <= 1
  {
    ReachableIsBalanced(run, steps, i, k);
    NoReleases(run, steps, i, k);
  }

  lemma {:induction false} NoReleases(run: seq<State>, steps: seq<Step>, i: nat, k: Key)
    requires IsRun(run, steps) && i < |run|
    requires forall j :: 0 <= j < |steps| ==> !steps[j].Release?
    ensures run[i].released[k] == 0
  {
    if i > 0 {
      NoReleases(run, steps, i - 1, k);
      assert run[i] == Apply(run[i - 1], steps[i - 1]);
    }
  }

  /** A release that reaches the database gives the next delivery its chance: its claim starts the handler. */
  lemma ReleaseAllowsRetry(run: seq<State>, steps: seq<Step>, i: nat, d: Delivery)
    requires IsRun(run, steps) && i < |steps| && steps[i].Release? && steps[i].deletes
    requires d in run[i].inFlight && run[i].inFlight[d] == Received(run[i].inFlight[steps[i].d].key)
    ensures var k := run[i].inFlight[d].key;
            Enabled(run[i + 1], Claim(d)) && Apply(run[i + 1], Claim(d)).started[k] == run[i + 1].started[k] + 1
  {
  }

  /** Events without an id are not protected: every single delivery of them starts the handler. */
  lemma {:induction false} WithoutIdEveryDeliveryStarts(n: nat, k: Key) returns (run: seq<State>, steps: seq<Step>)
    requires k.eventId.None? || k.eventId == Some("")
    ensures IsRun(run, steps) && |run| == n * 2 + 1
    ensures run[n * 2].started[k] == n && run[n * 2].marks == {}
    ensures forall d :: d in run[n * 2].inFlight ==> d < n
  {
    if n == 0 {
      run, steps := [INITIAL], [];
    } else {
      run, steps := WithoutIdEveryDeliveryStarts(n - 1, k);
      var s := run[|run| - 1];
      var received := Apply(s, Deliver(n - 1, k));
      run, steps := run + [received, Apply(received, Claim(n - 1))], steps + [Deliver(n - 1, k), Claim(n - 1)];
    }
  }
}
