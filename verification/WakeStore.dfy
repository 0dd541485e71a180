// The wake request table as its four calls update it in place.
module WakeStore {
  import opened Wrappers
  import opened WakeRequests

  class Store {
    var taps: seq<Tap>
    var clock: int

    constructor ()
      ensures Snapshot() == START
    {
      taps, clock := [], 0;
    }

    function Snapshot(): World
      reads this
    {
      World(taps, clock)
    }

    /** `create` */
    method CreateRequest(account: string, profile: string) returns (id: TapId)
      modifies this`taps
      ensures Snapshot() == Next(old(Snapshot()), Create(account, profile))
      ensures id == old(|taps|) && taps[id] == Fresh(account, profile, clock)
    {
      var i := 0;
      while i < |taps|
        invariant 0 <= i <= |taps| == old(|taps|)
        invariant forall k :: 0 <= k < |taps| ==>
          taps[k] == if k < i && PendingOf(old(taps[k]), account) then WakeRequests.Cancel(old(taps[k]), clock)
            else old(taps[k])
      {
        if taps[i].account == account && taps[i].status == Pending {
          taps := taps[i := taps[i].(status := Canceled, decidedAt := Some(clock))];
        }
        i := i + 1;
      }
      assert taps == CancelAll(old(taps), account, clock);
      id := |taps|;
      taps := taps + [Fresh(account, profile, clock)];
    }

    /** `cancel`: a decided row is returned as it is. */
    method CancelRequest(account: string, id: TapId) returns (row: Option<Tap>)
      modifies this`taps
      ensures Snapshot() == Next(old(Snapshot()), CancelTap(account, id))
      ensures row == if Owned(taps, account, id) then Some(taps[id]) else None
    {
      if id >= |taps| || taps[id].account != account { return None; }
      if taps[id].status == Pending {
        taps := taps[id := taps[id].(status := Canceled, decidedAt := Some(clock))];
      }
      return Some(taps[id]);
    }

    /** `pending_for_account`: newest first, expiring what is past its day. */
    method PendingForAccount(account: string) returns (newest: Option<TapId>)
      modifies this`taps
      ensures Snapshot() == Next(old(Snapshot()), Poll(account))
      ensures newest == None <==> forall k :: 0 <= k < |taps| ==> !PendingOf(taps[k], account)
      ensures newest.Some? ==>
        newest.value < |taps| && PendingOf(taps[newest.value], account) && !HasLapsed(taps[newest.value], clock)
      ensures newest.Some? ==> forall k :: newest.value < k < |taps| ==> !PendingOf(taps[k], account)
    {
      newest := None;
      var i := |taps|;
      while i > 0
        invariant 0 <= i <= |taps| == old(|taps|)
        invariant forall k :: 0 <= k < |taps| ==>
          taps[k] == if k >= i && PendingOf(old(taps[k]), account) && HasLapsed(old(taps[k]), clock)
            then Expire(old(taps[k]), clock) else old(taps[k])
        invariant newest == None <==> forall k :: i <= k < |taps| ==> !PendingOf(taps[k], account)
        invariant newest.Some? ==>
          i <= newest.value < |taps| && PendingOf(taps[newest.value], account) && !HasLapsed(taps[newest.value], clock)
        invariant newest.Some? ==> forall k :: newest.value < k < |taps| ==> !PendingOf(taps[k], account)
      {
        i := i - 1;
        if taps[i].account == account && taps[i].status == Pending {
          if HasLapsed(taps[i], clock) {
            taps := taps[i := taps[i].(status := Expired, decidedAt := Some(clock))];
          } else if newest == None {
            newest := Some(i);
          }
        }
      }
      assert taps == ExpireAll(old(taps), account, clock);
    }

    method Defer(id: TapId, why: Block)
      requires id < |taps|
      modifies this`taps
      ensures taps == old(taps)[id := old(taps[id]).(blocked := Some(why))]
    {
      taps := taps[id := taps[id].(blocked := Some(why))];
    }

    /** `claim`: the ladder of rungs, and what each leaves behind. */
    method ClaimRequest(claim: Claim) returns (answer: Answer)
      modifies this`taps
      ensures Snapshot() == Next(old(Snapshot()), ClaimTap(claim))
      ensures answer == AnswerTo(old(Snapshot()), claim)
    {
      if claim.request == None { return Refused(NoRequestId); }
      var id := claim.request.value;
      if id >= |taps| || taps[id].account != claim.account { return Refused(NoSuchRequest); }
      if taps[id].status != Pending { return Refused(AlreadyDecided(taps[id].status)); }
      if HasLapsed(taps[id], clock) {
        taps := taps[id := taps[id].(status := Expired, decidedAt := Some(clock))];
        return Refused(Lapsed);
      }
      if claim.schedule {
        Defer(id, ScheduleSource);
        return Refused(Deferred(ScheduleSource));
      }
      if claim.profiles.Some? && taps[id].profile !in claim.profiles.value {
        Defer(id, UnknownProfile);
        return Refused(Deferred(UnknownProfile));
      }
      if YoungerThanEvent(taps[id], claim, clock) && taps[id].refusals < PARKED_AFTER_REFUSAL_BOUND {
        taps := taps[id := taps[id].(refusals := taps[id].refusals + 1)];
        Defer(id, ParkedAfter);
        return Refused(Deferred(ParkedAfter));
      }
      taps := taps[id := taps[id].(status := Consumed, decidedAt := Some(clock), blocked := None)];
      return Applied(id, taps[id].profile);
    }
  }
}
