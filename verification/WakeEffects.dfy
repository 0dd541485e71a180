// What each wake call does to a tap, written out on its fields, and what the age comparison means.
module WakeEffects {
  import opened Wrappers
  import opened WakeRequests

  // ---------------------------------------------------------------- the other calls

  /** `create`: a day for the new tap, and every earlier pending one of the account is canceled now. */
  lemma CreateIs(w: World, account: string, profile: string)
    ensures var v := Next(w, Create(account, profile));
      && v.now == w.now && |v.taps| == |w.taps| + 1
      && v.taps[|w.taps|] == Tap(account, profile, Pending, Some(w.now), Some(w.now + 86_400), None, 0, None)
      && forall i :: 0 <= i < |w.taps| ==>
           v.taps[i] == if w.taps[i].account == account && w.taps[i].status == Pending
                        then w.taps[i].(status := Canceled, decidedAt := Some(w.now)) else w.taps[i]
  {
  }

  /** `cancel`: a pending tap of the account is canceled now, and no other tap moves. */
  lemma CancelIs(w: World, account: string, id: TapId)
    ensures var v := Next(w, CancelTap(account, id));
      && v.now == w.now && |v.taps| == |w.taps|
      && forall i :: 0 <= i < |w.taps| ==>
           v.taps[i] == if i == id && w.taps[i].account == account && w.taps[i].status == Pending
                        then w.taps[i].(status := Canceled, decidedAt := Some(w.now)) else w.taps[i]
  {
  }

  /** Reading the account's tap expires those of its pending taps whose day is over. */
  lemma PollIs(w: World, account: string)
    ensures var v := Next(w, WakeRequests.Poll(account));
      && v.now == w.now && |v.taps| == |w.taps|
      && forall i :: 0 <= i < |w.taps| ==>
           v.taps[i] == if w.taps[i].account == account && w.taps[i].status == Pending
                           && w.taps[i].expiresAt.Some? && w.taps[i].expiresAt.value < w.now
                        then w.taps[i].(status := Expired, decidedAt := Some(w.now)) else w.taps[i]
  {
  }

  // ---------------------------------------------------------------- the claim

  /** The tap is within its day and the wake could carry its profile. */
  predicate MayBeSpent(tap: Tap, claim: Claim, now: int) {
    && tap.status == Pending && (tap.expiresAt.Some? ==> now <= tap.expiresAt.value)
    && !claim.schedule && (claim.profiles.Some? ==> tap.profile in claim.profiles.value)
  }

  /** By ages, each taken on one clock, the tap was made after the claim's event; without a stamp nothing is said. */
  predicate IsForTheNextWake(tap: Tap, claim: Claim, now: int) {
    && tap.createdAt.Some? && claim.eventCreated.Some? && claim.daemonNow.Some?
    && claim.daemonNow.value - claim.eventCreated.value > now - tap.createdAt.value
  }

  /** Everything but the rung of the ages: who is refused outright, whose tap lapses, and what a deferral leaves. */
  lemma ClaimIsRefused(w: World, claim: Claim)
    ensures var v, answer := Next(w, ClaimTap(claim)), AnswerTo(w, claim);
      && (claim.request == None ==> answer == Refused(NoRequestId) && v == w)
      && (claim.request.Some? ==>
            var id := claim.request.value;
            if id >= |w.taps| || w.taps[id].account != claim.account then answer == Refused(NoSuchRequest) && v == w
            else
              var tap := w.taps[id];
              if tap.status != Pending then answer == Refused(AlreadyDecided(tap.status)) && v == w
              else if tap.expiresAt.Some? && tap.expiresAt.value < w.now then
                && answer == Refused(Lapsed)
                && v == w.(taps := w.taps[id := tap.(status := Expired, decidedAt := Some(w.now))])
              else if claim.schedule then
                && answer == Refused(Deferred(ScheduleSource))
                && v == w.(taps := w.taps[id := tap.(blocked := Some(ScheduleSource))])
              else if claim.profiles.Some? && tap.profile !in claim.profiles.value then
                && answer == Refused(Deferred(UnknownProfile))
                && v == w.(taps := w.taps[id := tap.(blocked := Some(UnknownProfile))])
              else MayBeSpent(tap, claim, w.now))
  {
  }

  /** A tap that may be spent is spent by this claim, unless it has been refused fewer than twice and is younger than
      the claim's event; then it waits, with one refusal more. */
  lemma ClaimSpendsOrWaits(w: World, claim: Claim, id: TapId)
    requires claim.request == Some(id) && id < |w.taps| && w.taps[id].account == claim.account
    requires MayBeSpent(w.taps[id], claim, w.now)
    ensures var v, answer, tap := Next(w, ClaimTap(claim)), AnswerTo(w, claim), w.taps[id];
      if IsForTheNextWake(tap, claim, w.now) && tap.refusals < 2 then
        && answer == Refused(Deferred(ParkedAfter))
        && v == w.(taps := w.taps[id := tap.(refusals := tap.refusals + 1, blocked := Some(ParkedAfter))])
      else
        && answer == Applied(id, tap.profile)
        && v == w.(taps := w.taps[id := tap.(status := Consumed, decidedAt := Some(w.now), blocked := None)])
  {
  }

  /** Seen on one clock: a daemon whose clock is `offset` off asks for an event that came at `came`. The tap waits for
      the next wake if and only if it was tapped after the event came, and has not waited twice. */
  lemma WaitsIffTappedAfter(w: World, claim: Claim, id: TapId, came: int, offset: int)
    requires claim.request == Some(id) && id < |w.taps| && w.taps[id].account == claim.account
    requires MayBeSpent(w.taps[id], claim, w.now) && w.taps[id].createdAt.Some?
    requires claim.eventCreated == Some(came + offset) && claim.daemonNow == Some(w.now + offset)
    ensures AnswerTo(w, claim) ==
      if came < w.taps[id].createdAt.value && w.taps[id].refusals < 2 then Refused(Deferred(ParkedAfter))
      else Applied(id, w.taps[id].profile)
  {
    ClaimSpendsOrWaits(w, claim, id);
  }
}
