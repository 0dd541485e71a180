// The window bound is tight: for every limit and every number of overlapping requests, an admitted run
// reaches it.
module AdmissionOvershoot {
  import opened Wrappers
  import opened EventTable
  import opened AlbumMerge
  import opened Limits
  import opened AdmissionWindows

  const NOTE := Item("r", "slack", "hello", [], None, None, None)
  const OWNERS: Owners := map["r" := "a"]

  function WatchOf(limit: nat, peak: nat): Watch {
    Watch(OWNERS, "a", MINUTE, limit, peak)
  }

  /** Every rate limit is `limit`. */
  function SettingsOf(limit: nat): Settings {
    Settings(5, 0, limit, limit, limit, limit)
  }

  function Noted(n: nat): Row {
    FreshRow(NOTE, n + 1, Minted(n), 0)
  }

  function Notes(landed: nat): (rows: seq<Row>)
    ensures |rows| == landed && forall i :: 0 <= i < landed ==> rows[i] == Noted(i)
  {
    seq(landed, i requires 0 <= i < landed => Noted(i))
  }

  function Calls(landed: nat, open: nat): (workers: seq<Worker>)
    ensures |workers| == landed + open
    ensures forall i :: 0 <= i < landed ==> workers[i] == Landed(NOTE, Minted(i))
    ensures forall i :: landed <= i < landed + open ==> workers[i] == Minting(NOTE)
  {
    seq(landed + open, i requires 0 <= i < landed + open =>
        if i < landed then Landed(NOTE, Minted(i)) else Minting(NOTE))
  }

  /** One night, one moment: `landed` events are in, `open` requests are admitted and still to land. */
  function Night(landed: nat, open: nat): World {
    World(Sequence, Notes(landed), landed, landed, 0, Calls(landed, open), multiset{})
  }

  lemma NightSteps(landed: nat, open: nat)
    ensures Next(Night(landed, open), Arrive(NOTE)) == Night(landed, open + 1)
    ensures Next(Night(landed, open + 1), Mint(landed)) == Night(landed + 1, open)
  {
    assert Calls(landed, open) + [Minting(NOTE)] == Calls(landed, open + 1);
    assert Notes(landed) + [Noted(landed)] == Notes(landed + 1);
    assert Calls(landed, open + 1)[landed := Landed(NOTE, Minted(landed))] == Calls(landed + 1, open);
  }

  lemma {:induction false} NightCounts(landed: nat, since: int)
    requires since <= 0
    ensures AccountEventCount(Notes(landed), OWNERS, "a", since) == landed
    ensures EventsIn(Notes(landed), OWNERS, "a", 0, MINUTE) == landed
  {
    if landed > 0 {
      assert Notes(landed)[..landed - 1] == Notes(landed - 1);
      NightCounts(landed - 1, since);
    }
  }

  lemma {:induction false} NightPending(landed: nat, open: nat)
    ensures Pending(Calls(landed, open), OWNERS, "a") == open
  {
    if open > 0 {
      assert Calls(landed, open)[..landed + open - 1] == Calls(landed, open - 1);
      NightPending(landed, open - 1);
    } else if landed > 0 {
      assert Calls(landed, 0)[..landed - 1] == Calls(landed - 1, 0);
      NightPending(landed - 1, 0);
    }
  }

  /** The run is admitted step by step, watched, safe, and ends where it should. */
  ghost predicate Good(w: World, steps: seq<Step>, limit: nat, peak: nat, end: World) {
    && Watched(w, steps, WatchOf(limit, peak)) && SafeRun(w, steps) && Run(w, steps) == end
    && Admitted(w, steps, SettingsOf(limit), OWNERS, Frees(|steps|))
  }

  function Frees(n: nat): (r: seq<Standing>)
    ensures |r| == n && forall i :: 0 <= i < n ==> r[i] == Free
  {
    seq(n, i requires 0 <= i < n => Free)
  }

  lemma GoodNext(w: World, step: Step, rest: seq<Step>, limit: nat, peak: nat, end: World)
    requires Good(Next(w, step), rest, limit, peak, end)
    requires Pending(w.workers, OWNERS, "a") <= peak && UnderLimit(w, step, WatchOf(limit, peak)) && !step.Sweep?
    requires step.Arrive? && step.item.repo in OWNERS ==>
      CheckEventAdmission(SettingsOf(limit), w.rows, OWNERS, Some(OWNERS[step.item.repo]), Free, step.item.body,
                          |step.item.attachments|, w.now) == Allow
    ensures Good(w, [step] + rest, limit, peak, end)
  {
    var steps := [step] + rest;
    assert steps[0] == step && steps[1..] == rest;
    assert Frees(|steps|)[1..] == Frees(|rest|);
  }

  lemma NightAdmits(landed: nat, limit: nat)
    requires landed < limit
    ensures AccountEventCount(Notes(landed), OWNERS, "a", -MINUTE) < limit
    ensures CheckEventAdmission(SettingsOf(limit), Notes(landed), OWNERS, Some("a"), Free, NOTE.body,
                                |NOTE.attachments|, 0) == Allow
  {
    NightCounts(landed, -MINUTE);
    NightCounts(landed, -DAY);
    assert Utf8Length("hello") == 5;
  }

  lemma ArriveIsGood(landed: nat, open: nat, rest: seq<Step>, limit: nat, peak: nat, end: World)
    requires landed < limit && open < peak && Good(Night(landed, open + 1), rest, limit, peak, end)
    ensures Good(Night(landed, open), [Arrive(NOTE)] + rest, limit, peak, end)
  {
    NightSteps(landed, open);
    NightPending(landed, open);
    NightAdmits(landed, limit);
    GoodNext(Night(landed, open), Arrive(NOTE), rest, limit, peak, end);
  }

  lemma MintIsGood(landed: nat, open: nat, rest: seq<Step>, limit: nat, peak: nat, end: World)
    requires open < peak && Good(Night(landed + 1, open), rest, limit, peak, end)
    ensures Good(Night(landed, open + 1), [Mint(landed)] + rest, limit, peak, end)
  {
    NightSteps(landed, open);
    NightPending(landed, open + 1);
    GoodNext(Night(landed, open + 1), Mint(landed), rest, limit, peak, end);
  }

  /** All open requests land. */
  lemma {:induction false} AllLand(landed: nat, open: nat, limit: nat, peak: nat) returns (steps: seq<Step>)
    requires open <= peak
    ensures Good(Night(landed, open), steps, limit, peak, Night(landed + open, 0))
    decreases open
  {
    if open == 0 {
      NightPending(landed, 0);
      steps := [];
    } else {
      var rest := AllLand(landed + 1, open - 1, limit, peak);
      MintIsGood(landed, open - 1, rest, limit, peak, Night(landed + open, 0));
      steps := [Mint(landed)] + rest;
    }
  }

  /** Just below the limit, the rest of `peak` requests arrive before any of them lands. */
  lemma {:induction false} AllArrive(landed: nat, open: nat, limit: nat, peak: nat) returns (steps: seq<Step>)
    requires landed < limit && open <= peak
    ensures Good(Night(landed, open), steps, limit, peak, Night(landed + peak, 0))
    decreases peak - open
  {
    if open == peak {
      steps := AllLand(landed, open, limit, peak);
    } else {
      var rest := AllArrive(landed, open + 1, limit, peak);
      ArriveIsGood(landed, open, rest, limit, peak, Night(landed + peak, 0));
      steps := [Arrive(NOTE)] + rest;
    }
  }

  /** One at a time up to one below the limit, then all at once. */
  lemma {:induction false} FillUp(landed: nat, limit: nat, peak: nat) returns (steps: seq<Step>)
    requires landed < limit && peak >= 1
    ensures Good(Night(landed, 0), steps, limit, peak, Night(limit - 1 + peak, 0))
    decreases limit - landed
  {
    if landed == limit - 1 {
      steps := AllArrive(landed, 0, limit, peak);
    } else {
      var rest := FillUp(landed + 1, limit, peak);
      MintIsGood(landed, 0, rest, limit, peak, Night(limit - 1 + peak, 0));
      ArriveIsGood(landed, 0, [Mint(landed)] + rest, limit, peak, Night(limit - 1 + peak, 0));
      steps := [Arrive(NOTE)] + ([Mint(landed)] + rest);
    }
  }

  /** For every limit and every number of overlapping requests, some run from the empty table, admitted step by
      step, puts exactly as many events into one minute as the bound allows. */
  lemma BoundIsReached(limit: nat, peak: nat) returns (steps: seq<Step>)
    requires limit >= 1 && peak >= 1
    ensures Init(Night(0, 0)) && SafeRun(Night(0, 0), steps) && Watched(Night(0, 0), steps, WatchOf(limit, peak))
    ensures Admitted(Night(0, 0), steps, SettingsOf(limit), OWNERS, Frees(|steps|))
    ensures InWindow(Run(Night(0, 0), steps).rows, WatchOf(limit, peak), 0) == Bound(WatchOf(limit, peak))
  {
    steps := FillUp(0, limit, peak);
    NightCounts(limit - 1 + peak, 0);
  }

  /** The overshoot is real: with two requests at once a minute whose limit is one holds two events. */
  lemma OverlapOvershoots() returns (steps: seq<Step>)
    ensures Init(Night(0, 0)) && SafeRun(Night(0, 0), steps) && Watched(Night(0, 0), steps, WatchOf(1, 2))
    ensures InWindow(Run(Night(0, 0), steps).rows, WatchOf(1, 2), 0) == 2 > WatchOf(1, 2).limit
  {
    steps := BoundIsReached(1, 2);
  }
}
