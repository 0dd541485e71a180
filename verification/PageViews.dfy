// The public page counter: an upsert written as UPDATE, else INSERT, tried twice, by any number of
// concurrent requests.
module PageViews {
  /** day, path, referer host, browser family, status: the primary key. */
  datatype Key = Key(day: int, path: string, referer: string, family: string, status: int)

  const ROUNDS := 2

  /** A call of `record_view`: about to UPDATE, about to INSERT after an UPDATE that hit no row, returned
      having counted, or out of rounds without. */
  datatype Call =
    | Updating(key: Key, round: nat)
    | Inserting(key: Key, round: nat)
    | Counted(key: Key)
    | GaveUp(key: Key)

  datatype World = World(views: map<Key, nat>, calls: seq<Call>)

  datatype Step = Begin(key: Key) | Act(k: nat)

  const EMPTY := World(map[], [])

  function Retry(key: Key, round: nat): Call {
    if round + 1 < ROUNDS then Updating(key, round + 1) else GaveUp(key)
  }

  function Next(w: World, step: Step): World {
    match step
    case Begin(key) => w.(calls := w.calls + [Updating(key, 0)])
    case Act(k) =>
      if k >= |w.calls| then w
      else
        match w.calls[k]
        case Updating(key, round) =>
          if key in w.views then World(w.views[key := w.views[key] + 1], w.calls[k := Counted(key)])
          else w.(calls := w.calls[k := Inserting(key, round)])
        case Inserting(key, round) =>
          if key in w.views then w.(calls := w.calls[k := Retry(key, round)])
          else World(w.views[key := 1], w.calls[k := Counted(key)])
        case _ => w
  }

  function Run(w: World, steps: seq<Step>): World {
    if steps == [] then w else Next(Run(w, steps[..|steps| - 1]), steps[|steps| - 1])
  }

  /** The calls on a key that have counted. */
  function Completed(calls: seq<Call>, key: Key): nat {
    if calls == [] then 0
    else Completed(calls[..|calls| - 1], key) + if calls[|calls| - 1] == Counted(key) then 1 else 0
  }

  function Views(w: World, key: Key): nat {
    if key in w.views then w.views[key] else 0
  }

  /** A call in its second round lost an insert, so its row exists and its UPDATE will hit. */
  ghost predicate CallOk(w: World, call: Call) {
    match call
    case Updating(key, round) => round == 0 || (round == 1 && key in w.views)
    case Inserting(key, round) => round == 0
    case Counted(key) => true
    case GaveUp(_) => false
  }

  ghost predicate Inv(w: World) {
    && (forall k :: 0 <= k < |w.calls| ==> CallOk(w, w.calls[k]))
    && (forall key :: Views(w, key) == Completed(w.calls, key))
  }

  lemma {:induction false} CompletedUpdate(calls: seq<Call>, k: nat, to: Call, key: Key)
    requires k < |calls| && !calls[k].Counted?
    ensures Completed(calls[k := to], key) == Completed(calls, key) + if to == Counted(key) then 1 else 0
  {
    var n := |calls| - 1;
    if k == n {
      assert calls[k := to][..n] == calls[..n];
    } else {
      CompletedUpdate(calls[..n], k, to, key);
      assert calls[k := to][..n] == calls[..n][k := to];
    }
  }

  lemma StepKeepsInv(w: World, step: Step)
    requires Inv(w)
    ensures Inv(Next(w, step))
  {
    var v := Next(w, step);
    match step
    case Begin(key) => assert v.calls[..|w.calls|] == w.calls;
    case Act(k) =>
      if k < |w.calls| && !w.calls[k].Counted? {
        assert CallOk(w, w.calls[k]);
        forall key ensures Views(v, key) == Completed(v.calls, key) {
          CompletedUpdate(w.calls, k, v.calls[k], key);
          assert Views(w, key) == Completed(w.calls, key);
        }
      }
  }

  /** In every interleaving the counter of a key is the number of calls that have returned, and no call ever
      runs out of rounds. */
  lemma {:induction false} CounterIsExact(steps: seq<Step>, key: Key)
    ensures Inv(Run(EMPTY, steps))
    ensures Views(Run(EMPTY, steps), key) == Completed(Run(EMPTY, steps).calls, key)
    ensures forall k :: 0 <= k < |Run(EMPTY, steps).calls| ==> !Run(EMPTY, steps).calls[k].GaveUp?
  {
    if steps != [] {
      CounterIsExact(steps[..|steps| - 1], key);
      StepKeepsInv(Run(EMPTY, steps[..|steps| - 1]), steps[|steps| - 1]);
    }
    var w := Run(EMPTY, steps);
    forall k | 0 <= k < |w.calls| ensures !w.calls[k].GaveUp? {
      assert CallOk(w, w.calls[k]);
    }
  }

  /** One statement of a call: an UPDATE that hits adds one view, an INSERT makes the first, and the loser of an INSERT
      goes round again, twice in all. No other key and no other call is touched. */
  lemma StatementIs(w: World, k: nat)
    requires k < |w.calls|
    ensures var v, call := Next(w, Act(k)), w.calls[k];
      match call
      case Updating(key, round) =>
        if key in w.views then v == World(w.views[key := w.views[key] + 1], w.calls[k := Counted(key)])
        else v == World(w.views, w.calls[k := Inserting(key, round)])
      case Inserting(key, round) =>
        if key !in w.views then v == World(w.views[key := 1], w.calls[k := Counted(key)])
        else v == World(w.views, w.calls[k := if round == 0 then Updating(key, 1) else GaveUp(key)])
      case _ => v == w
  {
  }

  /** One round would not do: the loser of a concurrent first view would go uncounted. */
  lemma SecondRoundIsNeeded(key: Key)
    ensures Run(EMPTY, [Begin(key), Begin(key), Act(0), Act(1), Act(0), Act(1)]).calls ==
      [Counted(key), Updating(key, 1)]
  {
    var s2, s4 := [Begin(key)] + [Begin(key)], [Begin(key)] + [Begin(key)] + [Act(0)] + [Act(1)];
    assert Run(EMPTY, []) == EMPTY;
    RunSnoc([], Begin(key));
    assert [] + [Begin(key)] == [Begin(key)];
    RunSnoc([Begin(key)], Begin(key));
    assert Run(EMPTY, s2) == World(map[], [Updating(key, 0), Updating(key, 0)]);
    RunSnoc(s2, Act(0));
    RunSnoc(s2 + [Act(0)], Act(1));
    assert Run(EMPTY, s4) == World(map[], [Inserting(key, 0), Inserting(key, 0)]);
    RunSnoc(s4, Act(0));
    RunSnoc(s4 + [Act(0)], Act(1));
    assert [Begin(key), Begin(key), Act(0), Act(1), Act(0), Act(1)] == s4 + [Act(0)] + [Act(1)];
  }

  lemma RunSnoc(steps: seq<Step>, last: Step)
    ensures Run(EMPTY, steps + [last]) == Next(Run(EMPTY, steps), last)
  {
    assert (steps + [last])[..|steps|] == steps;
  }

  // ---------------------------------------------------------------- record_view

  /** The steps of a history that are not statements of call `me`. */
  ghost function NotMine(steps: seq<Step>, me: nat): seq<Step> {
    if steps == [] then []
    else
      var last := steps[|steps| - 1];
      NotMine(steps[..|steps| - 1], me) + if last == Act(me) then [] else [last]
  }

  /** How often call `me` has moved. */
  ghost function Moves(steps: seq<Step>, me: nat): nat {
    if steps == [] then 0 else Moves(steps[..|steps| - 1], me) + if steps[|steps| - 1] == Act(me) then 1 else 0
  }

  ghost function Scheduled(schedule: seq<seq<Step>>, me: nat, used: nat): seq<Step>
    requires used <= |schedule|
  {
    if used == 0 then [] else Scheduled(schedule, me, used - 1) + NotMine(schedule[used - 1], me)
  }

  lemma Regroup(a: seq<Step>, b: seq<Step>, c: seq<Step>)
    ensures (a + b) + c == a + (b + c)
  {
  }

  /** What the others do in one round, which ends early when the UPDATE hits. */
  ghost function InRound(before: seq<Step>, between: seq<Step>, me: nat, both: bool): seq<Step> {
    if both then NotMine(before, me) + NotMine(between, me) else NotMine(before, me)
  }

  lemma ScheduledMore(start: seq<Step>, schedule: seq<seq<Step>>, me: nat, used: nat, both: bool)
    requires used + 2 <= |schedule|
    ensures (start + Scheduled(schedule, me, used)) + InRound(schedule[used], schedule[used + 1], me, both)
         == start + Scheduled(schedule, me, used + if both then 2 else 1)
  {
    var sofar, first, second :=
      Scheduled(schedule, me, used), NotMine(schedule[used], me), NotMine(schedule[used + 1], me);
    Regroup(start, sofar, first);
    Regroup(start, sofar, first + second);
    Regroup(sofar, first, second);
  }

  class Table {
    var views: map<Key, nat>
    var calls: seq<Call>
    ghost var trace: seq<Step>

    constructor ()
      ensures Valid() && trace == []
    {
      views, calls, trace := map[], [], [];
    }

    function Snapshot(): World
      reads this
    {
      World(views, calls)
    }

    ghost predicate Valid()
      reads this
    {
      Snapshot() == Run(EMPTY, trace)
    }

    method Take(step: Step, ghost me: nat)
      requires Valid()
      modifies this
      ensures Valid() && Snapshot() == Next(old(Snapshot()), step) && trace == old(trace) + [step]
      ensures NotMine(trace, me) == old(NotMine(trace, me)) + if step == Act(me) then [] else [step]
      ensures Moves(trace, me) == old(Moves(trace, me)) + if step == Act(me) then 1 else 0
    {
      var w := Next(Snapshot(), step);
      views, calls := w.views, w.calls;
      assert (trace + [step])[..|trace|] == trace;
      trace := trace + [step];
    }

    /** Other requests move; call `me` does not. */
    method Others(me: nat, steps: seq<Step>)
      requires Valid() && me < |calls|
      modifies this
      ensures Valid() && me < |calls| && calls[me] == old(calls[me])
      ensures NotMine(trace, me) == old(NotMine(trace, me)) + NotMine(steps, me)
      ensures Moves(trace, me) == old(Moves(trace, me))
    {
      ghost var heard := NotMine(trace, me);
      var i := 0;
      while i < |steps|
        invariant 0 <= i <= |steps|
        invariant Valid() && me < |calls| && calls[me] == old(calls[me])
        invariant NotMine(trace, me) == heard + NotMine(steps[..i], me) && Moves(trace, me) == old(Moves(trace, me))
      {
        assert steps[..i + 1][..i] == steps[..i];
        Regroup(heard, NotMine(steps[..i], me), if steps[i] == Act(me) then [] else [steps[i]]);
        if steps[i] != Act(me) { Take(steps[i], me); }
        i := i + 1;
      }
      assert steps[..i] == steps;
    }

    /** UPDATE ... SET views = views + 1: the row count. */
    method Update(me: nat) returns (hit: bool)
      requires Valid() && me < |calls| && calls[me].Updating?
      modifies this
      ensures Valid() && |calls| == old(|calls|)
      ensures NotMine(trace, me) == old(NotMine(trace, me)) && Moves(trace, me) == old(Moves(trace, me)) + 1
      ensures calls[me] == if hit then Counted(old(calls[me].key))
        else Inserting(old(calls[me].key), old(calls[me].round))
      ensures hit <==> old(calls[me].key in views)
    {
      var key := calls[me].key;
      assert (trace + [Act(me)])[..|trace|] == trace;
      hit := key in views;
      if hit { views := views[key := views[key] + 1]; }
      calls := calls[me := if hit then Counted(key) else Inserting(key, calls[me].round)];
      trace := trace + [Act(me)];
    }

    /** INSERT with views = 1: false on the primary key conflict. */
    method Insert(me: nat) returns (inserted: bool)
      requires Valid() && me < |calls| && calls[me].Inserting?
      modifies this
      ensures Valid() && |calls| == old(|calls|)
      ensures NotMine(trace, me) == old(NotMine(trace, me)) && Moves(trace, me) == old(Moves(trace, me)) + 1
      ensures calls[me] == if inserted then Counted(old(calls[me].key))
        else Retry(old(calls[me].key), old(calls[me].round))
    {
      var key, round := calls[me].key, calls[me].round;
      assert (trace + [Act(me)])[..|trace|] == trace;
      inserted := key !in views;
      if inserted { views := views[key := 1]; }
      calls := calls[me := if inserted then Counted(key) else Retry(key, round)];
      trace := trace + [Act(me)];
    }

    /** One round: true when the view is counted. */
    method Round(me: nat, before: seq<Step>, between: seq<Step>) returns (counted: bool, usedBoth: bool)
      requires Valid() && me < |calls| && calls[me].Updating?
      modifies this
      ensures Valid() && me < |calls|
      ensures calls[me] == if counted then Counted(old(calls[me].key))
        else Retry(old(calls[me].key), old(calls[me].round))
      ensures NotMine(trace, me) == old(NotMine(trace, me)) + InRound(before, between, me, usedBoth)
      ensures !usedBoth ==> counted
      ensures Moves(trace, me) == old(Moves(trace, me)) + if usedBoth then 2 else 1
    {
      Others(me, before);
      usedBoth := false;
      counted := Update(me);
      if !counted {
        ghost var heard := NotMine(trace, me);
        Regroup(old(NotMine(trace, me)), NotMine(before, me), NotMine(between, me));
        Others(me, between);
        usedBoth := true;
        counted := Insert(me);
      }
    }

    /** A round of the loop, with the next two turns of the schedule. */
    method NextRound(me: nat, schedule: seq<seq<Step>>, round: nat, ghost start: seq<Step>)
      returns (counted: bool, ghost used: nat)
      requires Valid() && me < |calls| && calls[me].Updating? && 2 * round + 2 <= |schedule|
      requires NotMine(trace, me) == start + Scheduled(schedule, me, 2 * round)
      modifies this
      ensures Valid() && me < |calls|
      ensures calls[me] == if counted then Counted(old(calls[me].key))
        else Retry(old(calls[me].key), old(calls[me].round))
      ensures used <= 2 * round + 2 && (!counted ==> used == 2 * round + 2)
      ensures NotMine(trace, me) == start + Scheduled(schedule, me, used)
      ensures Moves(trace, me) <= old(Moves(trace, me)) + 2
    {
      var usedBoth: bool;
      counted, usedBoth := Round(me, schedule[2 * round], schedule[2 * round + 1]);
      ScheduledMore(start, schedule, me, 2 * round, usedBoth);
      used := 2 * round + if usedBoth then 2 else 1;
    }

    /** The loop: counted, or out of rounds. */
    method Rounds(me: nat, key: Key, schedule: seq<seq<Step>>) returns (ghost used: nat)
      requires Valid() && me < |calls| && calls[me] == Updating(key, 0) && |schedule| == 2 * ROUNDS
      modifies this
      ensures Valid() && me < |calls| && (calls[me] == Counted(key) || calls[me] == GaveUp(key))
      ensures used <= |schedule| && NotMine(trace, me) == old(NotMine(trace, me)) + Scheduled(schedule, me, used)
      ensures Moves(trace, me) <= old(Moves(trace, me)) + 2 * ROUNDS
    {
      used := 0;
      ghost var start, moves := NotMine(trace, me), Moves(trace, me);
      var round, counted := 0, false;
      while round < ROUNDS && !counted
        invariant 0 <= round <= ROUNDS && Valid() && me < |calls| && used <= 2 * round
        invariant (!counted ==> used == 2 * round)
        invariant calls[me] == if counted then Counted(key) else if round < ROUNDS then Updating(key, round)
          else GaveUp(key)
        invariant NotMine(trace, me) == start + Scheduled(schedule, me, used)
        invariant Moves(trace, me) <= moves + 2 * round
      {
        counted, used := NextRound(me, schedule, round, start);
        round := round + 1;
      }
    }

    /** `record_view`, other requests moving before every statement: it always returns having counted. The history
        grows by its own start, at most two statements a round, and what the schedule let the others do. */
    method RecordView(key: Key, schedule: seq<seq<Step>>) returns (me: nat, ghost used: nat)
      requires Valid() && |schedule| == 2 * ROUNDS
      modifies this
      ensures Valid() && me == old(|calls|) && me < |calls| && calls[me] == Counted(key)
      ensures Views(Snapshot(), key) == Completed(calls, key)
      ensures used <= |schedule|
      ensures NotMine(trace, me) == (old(NotMine(trace, |calls|)) + [Begin(key)]) + Scheduled(schedule, me, used)
      ensures Moves(trace, me) <= old(Moves(trace, |calls|)) + 2 * ROUNDS
    {
      me := |calls|;
      Take(Begin(key), me);
      used := Rounds(me, key, schedule);
      CounterIsExact(trace, key);
    }
  }
}
