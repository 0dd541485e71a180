// The life of a dashboard tap: minted, superseded, canceled, lapsed, or spent by one wake.
// Each call is one transaction; time is the server's clock and never goes back.
module WakeRequests {
  import opened Wrappers

  const TTL := 24 * 3600
  const PARKED_AFTER_REFUSAL_BOUND := 2

  datatype Status = Pending | Consumed | Canceled | Expired

  /** Why a tap was deferred and stays pending. */
  datatype Block = ScheduleSource | UnknownProfile | ParkedAfter

  /** A row; its id is its position, rows are never removed. */
  datatype Tap = Tap(
    account: string,
    profile: string,
    status: Status,
    createdAt: Option<int>,
    expiresAt: Option<int>,
    decidedAt: Option<int>,
    refusals: nat,
    blocked: Option<Block>)

  type TapId = nat

  /** One dispatching wake asking for a tap; a blank request id is None. */
  datatype Claim = Claim(
    request: Option<TapId>,
    account: string,
    schedule: bool,
    profiles: Option<set<string>>,
    eventCreated: Option<int>,
    daemonNow: Option<int>)

  datatype Reason = NoRequestId | NoSuchRequest | AlreadyDecided(status: Status) | Lapsed | Deferred(why: Block)

  datatype Answer = Applied(id: TapId, profile: string) | Refused(reason: Reason)

  // ---------------------------------------------------------------- one tap

  predicate HasLapsed(tap: Tap, now: int) {
    tap.expiresAt.Some? && tap.expiresAt.value < now
  }

  predicate ProfileKnown(tap: Tap, claim: Claim) {
    claim.profiles.Some? ==> tap.profile in claim.profiles.value
  }

  /** Ages, each from one clock: the tap is younger than the event. */
  predicate YoungerThanEvent(tap: Tap, claim: Claim, now: int) {
    && tap.createdAt.Some? && claim.eventCreated.Some? && claim.daemonNow.Some?
    && now - tap.createdAt.value < claim.daemonNow.value - claim.eventCreated.value
  }

  function Expire(tap: Tap, now: int): Tap {
    tap.(status := Expired, decidedAt := Some(now))
  }

  function Cancel(tap: Tap, now: int): Tap {
    tap.(status := Canceled, decidedAt := Some(now))
  }

  /** The rungs, on a row that exists and is the account's: what is left of it, and the reason to refuse. */
  function Decide(tap: Tap, claim: Claim, now: int): (Tap, Option<Reason>) {
    if tap.status != Pending then (tap, Some(AlreadyDecided(tap.status)))
    else if HasLapsed(tap, now) then (Expire(tap, now), Some(Lapsed))
    else if claim.schedule then (tap.(blocked := Some(ScheduleSource)), Some(Deferred(ScheduleSource)))
    else if !ProfileKnown(tap, claim) then (tap.(blocked := Some(UnknownProfile)), Some(Deferred(UnknownProfile)))
    else if YoungerThanEvent(tap, claim, now) && tap.refusals < PARKED_AFTER_REFUSAL_BOUND then
      (tap.(refusals := tap.refusals + 1, blocked := Some(ParkedAfter)), Some(Deferred(ParkedAfter)))
    else (tap.(status := Consumed, decidedAt := Some(now), blocked := None), None)
  }

  // ---------------------------------------------------------------- the table

  datatype World = World(taps: seq<Tap>, now: int)

  datatype Op =
    | Wait(seconds: nat)
    | Create(account: string, profile: string)
    | CancelTap(account: string, id: TapId)
    | Poll(account: string)
    | ClaimTap(claim: Claim)

  predicate Owned(taps: seq<Tap>, account: string, id: TapId) {
    id < |taps| && taps[id].account == account
  }

  predicate PendingOf(tap: Tap, account: string) {
    tap.account == account && tap.status == Pending
  }

  function Fresh(account: string, profile: string, now: int): Tap {
    Tap(account, profile, Pending, Some(now), Some(now + TTL), None, 0, None)
  }

  function CancelAll(taps: seq<Tap>, account: string, now: int): (r: seq<Tap>)
    ensures |r| == |taps|
    ensures forall i ::
      0 <= i < |taps| ==> r[i] == if PendingOf(taps[i], account) then Cancel(taps[i], now) else taps[i]
  {
    seq(|taps|, i requires 0 <= i < |taps| => if PendingOf(taps[i], account) then Cancel(taps[i], now) else taps[i])
  }

  function ExpireAll(taps: seq<Tap>, account: string, now: int): (r: seq<Tap>)
    ensures |r| == |taps|
    ensures forall i :: 0 <= i < |taps| ==>
      r[i] == if PendingOf(taps[i], account) && HasLapsed(taps[i], now) then Expire(taps[i], now) else taps[i]
  {
    seq(|taps|, i requires 0 <= i < |taps| =>
      if PendingOf(taps[i], account) && HasLapsed(taps[i], now) then Expire(taps[i], now) else taps[i])
  }

  function Next(w: World, op: Op): World {
    match op
    case Wait(seconds) => w.(now := w.now + seconds)
    case Create(account, profile) => w.(taps := CancelAll(w.taps, account, w.now) + [Fresh(account, profile, w.now)])
    case CancelTap(account, id) =>
      if Owned(w.taps, account, id) && w.taps[id].status == Pending
        then w.(taps := w.taps[id := Cancel(w.taps[id], w.now)]) else w
    case Poll(account) => w.(taps := ExpireAll(w.taps, account, w.now))
    case ClaimTap(claim) =>
      if claim.request.Some? && Owned(w.taps, claim.account, claim.request.value)
      then w.(taps := w.taps[claim.request.value := Decide(w.taps[claim.request.value], claim, w.now).0])
      else w
  }

  function AnswerTo(w: World, claim: Claim): Answer {
    match claim.request
    case None => Refused(NoRequestId)
    case Some(id) =>
      if !Owned(w.taps, claim.account, id) then Refused(NoSuchRequest)
      else
        match Decide(w.taps[id], claim, w.now).1
        case Some(reason) => Refused(reason)
        case None => Applied(id, w.taps[id].profile)
  }

  const START := World([], 0)

  function Run(w: World, ops: seq<Op>): World {
    if ops == [] then w else Next(Run(w, ops[..|ops| - 1]), ops[|ops| - 1])
  }

  // ---------------------------------------------------------------- terminal states

  /** A decided tap never changes again, in any field. */
  lemma {:induction false} DecidedIsForever(w: World, ops: seq<Op>, id: TapId)
    requires id < |w.taps| && w.taps[id].status != Pending
    ensures id < |Run(w, ops).taps| && Run(w, ops).taps[id] == w.taps[id]
  {
    if ops != [] {
      DecidedIsForever(w, ops[..|ops| - 1], id);
      var before := Run(w, ops[..|ops| - 1]);
      assert before.taps[id].status != Pending;
    }
  }

  // ---------------------------------------------------------------- spending

  predicate Spends(w: World, op: Op, id: TapId) {
    op.ClaimTap? && AnswerTo(w, op.claim).Applied? && AnswerTo(w, op.claim).id == id
  }

  function TimesApplied(w: World, ops: seq<Op>, id: TapId): nat {
    if ops == [] then 0
    else TimesApplied(w, ops[..|ops| - 1], id) + if Spends(Run(w, ops[..|ops| - 1]), ops[|ops| - 1], id) then 1 else 0
  }

  predicate IsConsumed(w: World, id: TapId) {
    id < |w.taps| && w.taps[id].status == Consumed
  }

  lemma StepSpends(w: World, op: Op, id: TapId)
    ensures Spends(w, op, id) ==> !IsConsumed(w, id) && IsConsumed(Next(w, op), id)
    ensures !Spends(w, op, id) ==> (IsConsumed(Next(w, op), id) <==> IsConsumed(w, id))
  {
    if op.ClaimTap? && op.claim.request.Some? && Owned(w.taps, op.claim.account, op.claim.request.value) {
      assert Next(w, op).taps[op.claim.request.value] == Decide(w.taps[op.claim.request.value], op.claim, w.now).0;
    }
  }

  /** A tap is consumed exactly when one claim was told to apply it, and never two were. */
  lemma {:induction false} AppliedOnceIffConsumed(ops: seq<Op>, id: TapId)
    ensures TimesApplied(START, ops, id) == if IsConsumed(Run(START, ops), id) then 1 else 0
  {
    if ops != [] {
      AppliedOnceIffConsumed(ops[..|ops| - 1], id);
      StepSpends(Run(START, ops[..|ops| - 1]), ops[|ops| - 1], id);
    }
  }

  // ---------------------------------------------------------------- what every run keeps

  ghost predicate OnePending(taps: seq<Tap>) {
    forall i, j :: 0 <= i < j < |taps| ==> !(taps[i].status == Pending && PendingOf(taps[j], taps[i].account))
  }

  /** A row as `create` makes it and the other calls leave it. */
  predicate Stamped(tap: Tap, now: int) {
    && tap.createdAt.Some? && tap.expiresAt == Some(tap.createdAt.value + TTL) && tap.createdAt.value <= now
    && tap.refusals <= PARKED_AFTER_REFUSAL_BOUND
    && (tap.status == Pending <==> tap.decidedAt == None)
    && (tap.status == Consumed ==>
        tap.blocked == None && tap.createdAt.value <= tap.decidedAt.value <= tap.expiresAt.value)
    && (tap.status == Expired ==> tap.decidedAt.value > tap.expiresAt.value)
    && (tap.decidedAt.Some? ==> tap.decidedAt.value <= now)
  }

  /** In creation order, so that the newest pending row is the one with the largest id. */
  ghost predicate InOrder(taps: seq<Tap>) {
    forall i, j :: 0 <= i < j < |taps| && taps[i].createdAt.Some? && taps[j].createdAt.Some? ==>
      taps[i].createdAt.value <= taps[j].createdAt.value
  }

  ghost predicate Inv(w: World) {
    OnePending(w.taps) && InOrder(w.taps) && forall i :: 0 <= i < |w.taps| ==> Stamped(w.taps[i], w.now)
  }

  lemma StepKeepsStamps(w: World, op: Op)
    requires Inv(w)
    ensures forall i :: 0 <= i < |Next(w, op).taps| ==> Stamped(Next(w, op).taps[i], Next(w, op).now)
  {
    var v := Next(w, op);
    forall i | 0 <= i < |v.taps| ensures Stamped(v.taps[i], v.now) {
      if i < |w.taps| {
        assert Stamped(w.taps[i], w.now);
      }
    }
  }

  /** No step turns a decided tap pending again, or moves a tap to another account. */
  lemma StepKeepsOnePending(w: World, op: Op)
    requires OnePending(w.taps)
    ensures OnePending(Next(w, op).taps)
  {
    var v := Next(w, op);
    assert forall i :: 0 <= i < |w.taps| ==>
      v.taps[i].account == w.taps[i].account && (v.taps[i].status == Pending ==> w.taps[i].status == Pending);
  }

  lemma StepKeepsOrder(w: World, op: Op)
    requires InOrder(w.taps) && forall i :: 0 <= i < |w.taps| ==> Stamped(w.taps[i], w.now)
    ensures InOrder(Next(w, op).taps)
  {
    var v := Next(w, op);
    assert forall i ::
      0 <= i < |w.taps| ==> v.taps[i].createdAt == w.taps[i].createdAt && w.taps[i].createdAt.value <= w.now;
  }

  lemma StepKeepsInv(w: World, op: Op)
    requires Inv(w)
    ensures Inv(Next(w, op))
  {
    StepKeepsStamps(w, op);
    StepKeepsOnePending(w, op);
    StepKeepsOrder(w, op);
  }

  /** Every account has at most one pending tap; a consumed tap was spent within a day of the tap; an
      expired one was decided after its day. */
  lemma {:induction false} RunKeepsInv(ops: seq<Op>)
    ensures Inv(Run(START, ops))
  {
    if ops != [] {
      RunKeepsInv(ops[..|ops| - 1]);
      StepKeepsInv(Run(START, ops[..|ops| - 1]), ops[|ops| - 1]);
    }
  }

  /** Past its day an unspent tap can no longer be spent, whatever follows. */
  lemma {:induction false} LapsedIsNeverConsumed(w: World, ops: seq<Op>, id: TapId)
    requires id < |w.taps| && w.taps[id].status != Consumed && HasLapsed(w.taps[id], w.now)
    ensures !IsConsumed(Run(w, ops), id)
    ensures id < |Run(w, ops).taps| && HasLapsed(Run(w, ops).taps[id], Run(w, ops).now)
  {
    if ops != [] {
      LapsedIsNeverConsumed(w, ops[..|ops| - 1], id);
      var before, op := Run(w, ops[..|ops| - 1]), ops[|ops| - 1];
      if op.ClaimTap? && op.claim.request == Some(id) && Owned(before.taps, op.claim.account, id) {
        assert Next(before, op).taps[id] == Decide(before.taps[id], op.claim, before.now).0;
      }
    }
  }

  /** A new tap is the account's one pending tap, and no other account's tap changes. */
  lemma CreateSupersedes(ops: seq<Op>, account: string, profile: string)
    ensures var before, after := Run(START, ops), Next(Run(START, ops), Create(account, profile));
      && |after.taps| == |before.taps| + 1
      && (forall i :: 0 <= i < |after.taps| ==> (PendingOf(after.taps[i], account) <==> i == |before.taps|))
      && (forall i :: 0 <= i < |before.taps| && before.taps[i].account != account ==> after.taps[i] == before.taps[i])
  {
  }

  // ---------------------------------------------------------------- starvation

  /** A claim no rung but the age comparison could refuse. */
  predicate Eligible(w: World, op: Op, id: TapId) {
    && op.ClaimTap? && op.claim.request == Some(id) && Owned(w.taps, op.claim.account, id)
    && w.taps[id].status == Pending && !HasLapsed(w.taps[id], w.now)
    && !op.claim.schedule && ProfileKnown(w.taps[id], op.claim)
  }

  /** Only an eligible claim spends a tap; one that is not, such as a scheduled wake or a daemon without the
      profile, leaves a pending tap pending for its day. */
  lemma OnlyEligibleClaimsSpend(w: World, op: Op, id: TapId)
    ensures Spends(w, op, id) ==> Eligible(w, op, id)
    ensures op.ClaimTap? && !Spends(w, op, id) && id < |w.taps| && w.taps[id].status == Pending
            && !HasLapsed(w.taps[id], w.now) ==>
      Next(w, op).taps[id].status == Pending
  {
    if op.ClaimTap? && op.claim.request.Some? && Owned(w.taps, op.claim.account, op.claim.request.value) {
      assert Next(w, op).taps[op.claim.request.value] == Decide(w.taps[op.claim.request.value], op.claim, w.now).0;
    }
  }

  function EligibleRefusals(w: World, ops: seq<Op>, id: TapId): nat {
    if ops == [] then 0
    else
      var before := Run(w, ops[..|ops| - 1]);
      EligibleRefusals(w, ops[..|ops| - 1], id)
        + if Eligible(before, ops[|ops| - 1], id) && !Spends(before, ops[|ops| - 1], id) then 1 else 0
  }

  function RefusalsOf(w: World, id: TapId): nat {
    if id < |w.taps| then w.taps[id].refusals else 0
  }

  lemma StepRefuses(w: World, op: Op, id: TapId)
    requires Inv(w)
    ensures RefusalsOf(Next(w, op), id) ==
      RefusalsOf(w, id) + if Eligible(w, op, id) && !Spends(w, op, id) then 1 else 0
    ensures Eligible(w, op, id) && RefusalsOf(w, id) >= PARKED_AFTER_REFUSAL_BOUND ==> Spends(w, op, id)
  {
    if op.ClaimTap? && op.claim.request.Some? && Owned(w.taps, op.claim.account, op.claim.request.value) {
      assert Next(w, op).taps[op.claim.request.value] == Decide(w.taps[op.claim.request.value], op.claim, w.now).0;
    }
  }

  /** Over a whole run a tap loses at most two eligible claims; after two, the next one spends it. */
  lemma {:induction false} StarvationIsBounded(ops: seq<Op>, id: TapId, op: Op)
    ensures EligibleRefusals(START, ops, id) <= PARKED_AFTER_REFUSAL_BOUND
    ensures EligibleRefusals(START, ops, id) == RefusalsOf(Run(START, ops), id)
    ensures EligibleRefusals(START, ops, id) == PARKED_AFTER_REFUSAL_BOUND && Eligible(Run(START, ops), op, id) ==>
      Spends(Run(START, ops), op, id)
  {
    RunKeepsInv(ops);
    if ops != [] {
      var init, last := ops[..|ops| - 1], ops[|ops| - 1];
      StarvationIsBounded(init, id, last);
      RunKeepsInv(init);
      StepRefuses(Run(START, init), last, id);
    }
    StepRefuses(Run(START, ops), op, id);
  }

  // ---------------------------------------------------------------- clocks

  function Shift(stamp: Option<int>, offset: int): Option<int> {
    if stamp.Some? then Some(stamp.value + offset) else None
  }

  /** The same claim from a daemon whose clock is `offset` seconds off. */
  function Skewed(op: Op, offset: int): Op {
    if op.ClaimTap?
    then ClaimTap(op.claim.(eventCreated :=
                            Shift(op.claim.eventCreated, offset), daemonNow := Shift(op.claim.daemonNow, offset)))
    else op
  }

  /** What each call of a run is told; only claims are told anything. */
  function Answers(w: World, ops: seq<Op>): seq<Option<Answer>> {
    if ops == [] then []
    else
      var init, last := ops[..|ops| - 1], ops[|ops| - 1];
      Answers(w, init) + [if last.ClaimTap? then Some(AnswerTo(Run(w, init), last.claim)) else None]
  }

  lemma SkewedStep(w: World, op: Op, offset: int)
    ensures Next(w, Skewed(op, offset)) == Next(w, op)
    ensures op.ClaimTap? ==> AnswerTo(w, Skewed(op, offset).claim) == AnswerTo(w, op.claim)
  {
    if op.ClaimTap? {
      var claim, skewed := op.claim, Skewed(op, offset).claim;
      assert forall tap :: Decide(tap, skewed, w.now) == Decide(tap, claim, w.now);
    }
  }

  /** Whatever offset each daemon's clock has at each claim, the table and every answer come out
      the same. */
  lemma {:induction false} SkewChangesNothing(w: World, ops: seq<Op>, skewed: seq<Op>, offsets: seq<int>)
    requires |ops| == |skewed| == |offsets|
    requires forall i :: 0 <= i < |ops| ==> skewed[i] == Skewed(ops[i], offsets[i])
    ensures Run(w, skewed) == Run(w, ops) && Answers(w, skewed) == Answers(w, ops)
  {
    if ops != [] {
      var n := |ops| - 1;
      SkewChangesNothing(w, ops[..n], skewed[..n], offsets[..n]);
      SkewedStep(Run(w, ops[..n]), ops[n], offsets[n]);
      assert skewed[n] == Skewed(ops[n], offsets[n]);
    }
  }
}
