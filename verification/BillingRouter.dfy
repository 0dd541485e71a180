// The Stripe webhook endpoint: an event id is handled once, in the same transaction that records it.
module BillingRouter {
  import opened Billing
  import opened BillingGrants
  import opened BillingRegrants
  import BillingStore

  /** The billing tables and the `stripe_events` table. */
  datatype Desk = Desk(state: State, seen: set<string>)

  /** An event as it is received, its id empty when it carries none, or a step of the rest of the application. */
  datatype Call =
    | Receive(eventId: string, kind: Kind, obj: Object)
    | Elsewhere(step: Step)

  const OPENING := Desk(NOTHING, {})

  function StepOf(call: Call): Step {
    match call
    case Receive(_, kind, obj) => Webhook(kind, obj)
    case Elsewhere(step) => step
  }

  /** The endpoint has recorded this event already. */
  predicate IsDuplicate(d: Desk, call: Call) {
    call.Receive? && call.eventId != "" && call.eventId in d.seen
  }

  /** The handler ran and its transaction was committed. */
  predicate IsApplied(settings: Settings, d: Desk, call: Call) {
    call.Receive? && !IsDuplicate(d, call) && HandleStripeEvent(settings, d.state, call.kind, call.obj).Applied?
  }

  /** An event goes through the endpoint; an exception rolls back the record of it as well. */
  function NextDesk(settings: Settings, d: Desk, call: Call): Desk {
    if IsDuplicate(d, call) then d
    else Desk(Next(settings, d.state, StepOf(call)),
              if IsApplied(settings, d, call) && call.eventId != "" then d.seen + {call.eventId} else d.seen)
  }

  function RunDesk(settings: Settings, d: Desk, calls: seq<Call>): Desk
    decreases |calls|
  {
    if calls == [] then d else RunDesk(settings, NextDesk(settings, d, calls[0]), calls[1..])
  }

  // ---------------------------------------------------------------- a run of the billing machine

  /** The steps that get past the endpoint. */
  function Passed(settings: Settings, d: Desk, calls: seq<Call>): seq<Step>
    decreases |calls|
  {
    if calls == [] then []
    else
      (if IsDuplicate(d, calls[0]) then [] else [StepOf(calls[0])])
        + Passed(settings, NextDesk(settings, d, calls[0]), calls[1..])
  }

  /** Whatever is received and however often, the billing tables are those of a run of the billing machine, so all
      that holds of its runs holds behind the endpoint. */
  lemma {:induction false} EndpointRunsTheMachine(settings: Settings, d: Desk, calls: seq<Call>)
    ensures RunDesk(settings, d, calls).state == Run(settings, d.state, Passed(settings, d, calls))
    decreases |calls|
  {
    if calls != [] {
      var next := NextDesk(settings, d, calls[0]);
      EndpointRunsTheMachine(settings, next, calls[1..]);
      if IsDuplicate(d, calls[0]) {
        assert Passed(settings, d, calls) == Passed(settings, next, calls[1..]);
      } else {
        RunFirst(settings, d.state, StepOf(calls[0]), Passed(settings, next, calls[1..]));
      }
    }
  }

  // ---------------------------------------------------------------- each event id once

  function TimesApplied(settings: Settings, d: Desk, calls: seq<Call>, eventId: string): nat
    decreases |calls|
  {
    if calls == [] then 0
    else
      (if IsApplied(settings, d, calls[0]) && calls[0].eventId == eventId then 1 else 0)
        + TimesApplied(settings, NextDesk(settings, d, calls[0]), calls[1..], eventId)
  }

  /** Over every run, erasures included, an event id is applied exactly when it comes to be on record, and never a
      second time. */
  lemma {:induction false} EventIdIsAppliedOnce(settings: Settings, d: Desk, calls: seq<Call>, eventId: string)
    requires eventId != ""
    ensures TimesApplied(settings, d, calls, eventId) + (if eventId in d.seen then 1 else 0)
         == if eventId in RunDesk(settings, d, calls).seen then 1 else 0
    decreases |calls|
  {
    if calls != [] {
      EventIdIsAppliedOnce(settings, NextDesk(settings, d, calls[0]), calls[1..], eventId);
    }
  }

  /** Redelivering an applied event changes nothing, at any later point. */
  lemma RedeliveredEventIsInert(settings: Settings, d: Desk, call: Call, calls: seq<Call>)
    requires IsApplied(settings, d, call) && call.eventId != ""
    ensures var later := RunDesk(settings, NextDesk(settings, d, call), calls);
            NextDesk(settings, later, call) == later
  {
    EventIdIsAppliedOnce(settings, NextDesk(settings, d, call), calls, call.eventId);
  }

  // ---------------------------------------------------------------- two events about one payment

  ghost predicate FreshIds(d: Desk, calls: seq<Call>) {
    && (forall i :: 0 <= i < |calls| && calls[i].Receive? ==> calls[i].eventId !in d.seen)
    && (forall i, j :: 0 <= i < j < |calls| && calls[i].Receive? && calls[j].Receive? ==>
          calls[i].eventId != calls[j].eventId)
  }

  function StepsOf(calls: seq<Call>): (steps: seq<Step>)
    ensures |steps| == |calls| && forall i :: 0 <= i < |calls| ==> steps[i] == StepOf(calls[i])
  {
    seq(|calls|, i requires 0 <= i < |calls| => StepOf(calls[i]))
  }

  lemma {:induction false} FreshIdsPass(settings: Settings, d: Desk, calls: seq<Call>)
    requires FreshIds(d, calls)
    ensures Passed(settings, d, calls) == StepsOf(calls)
    decreases |calls|
  {
    if calls != [] {
      var next := NextDesk(settings, d, calls[0]);
      forall i | 0 <= i < |calls[1..]| && calls[1..][i].Receive? ensures calls[1..][i].eventId !in next.seen {
        assert calls[1..][i] == calls[i + 1];
      }
      FreshIdsPass(settings, next, calls[1..]);
      assert StepsOf(calls) == [StepOf(calls[0])] + StepsOf(calls[1..]);
    }
  }

  const SECOND_EVENT: seq<Call> :=
    [Elsewhere(SignUp("A")), Receive("e1", CheckoutCompleted, Attach("A").obj), Receive("e2", CheckoutCompleted, TOPUP),
     Elsewhere(Delete("A", 1)), Elsewhere(SignUp("B")), Receive("e3", CheckoutCompleted, Attach("B").obj),
     Receive("e4", CheckoutCompleted, TOPUP)]

  /** The endpoint lets a second event about the same payment through: four events, four ids, and the payment is
      credited to the erased account and to the one its customer came to. */
  lemma SecondEventGrantsAgain(settings: Settings)
    ensures FreshIds(OPENING, SECOND_EVENT)
    ensures TimesGranted(settings, NOTHING, Passed(settings, OPENING, SECOND_EVENT), "pi") == 2
  {
    FreshIdsPass(settings, OPENING, SECOND_EVENT);
    assert StepsOf(SECOND_EVENT) == TWICE;
    RefGrantsTwice(settings);
  }

  // ---------------------------------------------------------------- the endpoint

  class Endpoint {
    const store: BillingStore.Store
    var seen: set<string>

    constructor (store: BillingStore.Store)
      ensures this.store == store && seen == {}
    {
      this.store := store;
      seen := {};
    }

    function Snapshot(): Desk
      reads this, store
    {
      Desk(store.Snapshot(), seen)
    }

    /** `stripe_webhook`, past the signature: look the event id up, handle, record, commit. */
    method StripeWebhook(settings: Settings, eventId: string, kind: Kind, obj: Object)
      returns (disposition: string, raised: bool)
      modifies this`seen, store
      ensures Snapshot() == NextDesk(settings, old(Snapshot()), Receive(eventId, kind, obj))
      ensures old(IsDuplicate(Snapshot(), Receive(eventId, kind, obj))) ==> !raised && disposition == "duplicate"
      ensures !old(IsDuplicate(Snapshot(), Receive(eventId, kind, obj))) ==>
        raised == old(HandleStripeEvent(settings, store.Snapshot(), kind, obj)).Raised?
    {
      if eventId != "" && eventId in seen { return "duplicate", false; }
      disposition, raised := store.HandleEvent(settings, kind, obj);
      if !raised && eventId != "" { seen := seen + {eventId}; }
    }
  }
}
