// Cursor delivery across a sweep that deletes the newest row of a SQLite table.
//
// max+1 then hands out again a seq the daemon's cursor has already passed, and neither the fetch nor
// the clamp can tell the new event from the one it has read.
module DeliverySweeps {
  import opened Wrappers
  import opened EventTable
  import opened AlbumMerge
  import opened AlbumGuarantees
  import opened AlbumSweeps
  import opened Delivery

  // ---------------------------------------------------------------- the exact condition

  function Served(steps: seq<Step>): (r: seq<SystemStep>)
    ensures |r| == |steps| && forall i :: 0 <= i < |r| ==> r[i] == Server(steps[i])
  {
    seq(|steps|, i requires 0 <= i < |steps| => Server(steps[i]))
  }

  lemma {:induction false} ServedRun(s: System, repos: set<string>, steps: seq<Step>)
    requires OnlyInserts(steps)
    ensures RunSystem(s, repos, Served(steps)) == s.(world := Run(s.world, steps))
    ensures SafeSystemRun(s, repos, Served(steps))
    decreases |steps|
  {
    if steps != [] {
      assert Served(steps)[1..] == Served(steps[1..]);
      ServedRun(s.(world := Next(s.world, steps[0])), repos, steps[1..]);
    }
  }

  function SweptSystem(s: System): System {
    s.(world := Swept(s.world))
  }

  /** A plain event of one of the repos that nobody could take for the row the daemon remembers under `at`. */
  function Stranger(daemon: Daemon, at: nat, repo: string): Item {
    Item(repo, if at in daemon.got then daemon.got[at].source + "!" else "", "", [], None, None, None)
  }

  /** Events arrive until one gets the seq the cursor stands on: it is never fetched, and polls move nothing. */
  lemma CursorAboveLosesAnEvent(s: System, repos: set<string>, repo: string) returns (steps: seq<SystemStep>, r: Row)
    requires Ordered(s.world) && s.world.alloc.MaxPlusOne? && repo in repos
    requires s.daemon.cursor > Swept(s.world).high
    ensures SafeSystemRun(SweptSystem(s), repos, steps)
    ensures var lost := RunSystem(SweptSystem(s), repos, steps);
            Lost(lost, repos, r) && forall limit :: AfterPoll(lost.world.rows, repos, lost.daemon, limit) == lost.daemon
  {
    var v, at := SweptSystem(s), s.daemon.cursor as nat;
    OrderedSweep(s.world);
    var item := Stranger(s.daemon, at, repo);
    var inserts := InsertUpTo(v.world, item, at);
    ServedRun(v, repos, inserts);
    steps := Served(inserts);
    var u := Run(v.world, inserts);
    r := u.rows[|u.rows| - 1];
    assert r in u.rows;
    if at in s.daemon.got {
      assert |r.source| != |s.daemon.got[at].source|;
    }
    NothingPast(u.rows, repos, s.daemon.cursor);
    CeilingIsMax(u.rows, repos);
  }

  /** From a state in which nothing was skipped: after a sweep of a SQLite table some otherwise safe run leaves a
      queued event of the repos undelivered with an empty backlog if and only if the daemon's cursor is above all
      that the sweep leaves. */
  lemma SweepLosesAnEventIff(s: System, repos: set<string>)
    requires Ordered(s.world) && NothingSkipped(s, repos) && s.world.alloc.MaxPlusOne? && repos != {}
    ensures (exists steps, r ::
             SafeSystemRun(SweptSystem(s), repos, steps) && Lost(RunSystem(SweptSystem(s), repos, steps), repos, r))
            <==> s.daemon.cursor > Swept(s.world).high
  {
    if s.daemon.cursor > Swept(s.world).high {
      var repo :| repo in repos;
      var steps, r := CursorAboveLosesAnEvent(s, repos, repo);
      assert SafeSystemRun(SweptSystem(s), repos, steps) && Lost(RunSystem(SweptSystem(s), repos, steps), repos, r);
    } else {
      OrderedSweep(s.world);
      ServerSkipsNothing(s, repos, Sweep);
      forall steps, r | SafeSystemRun(SweptSystem(s), repos, steps)
        ensures !Lost(RunSystem(SweptSystem(s), repos, steps), repos, r)
      {
        DrainedMeansDelivered(SweptSystem(s), repos, steps, r);
      }
    }
  }

  // ---------------------------------------------------------------- a run from the empty table

  const NOTE := Item("repo", "slack", "hello", [], None, None, None)
  const REPOS: set<string> := {"repo"}

  function Note(n: nat, at: int): Row {
    FreshRow(NOTE, 1, Minted(n), at)
  }

  const READ := Daemon(1, map[1 := Note(0, 0)])
  const FIRST := World(MaxPlusOne, [Note(0, 0)], 1, 1, 0, [Landed(NOTE, Minted(0))], multiset{})
  const LATER := FIRST.(now := ROW_TTL + 1)
  const GONE := LATER.(rows := [], high := 0)
  const SECOND :=
    World(MaxPlusOne, [Note(1, ROW_TTL + 1)], 1, 2, ROW_TTL + 1,
          [Landed(NOTE, Minted(0)), Landed(NOTE, Minted(1))], multiset{})

  const NIGHT := World(MaxPlusOne, [], 0, 0, 0, [], multiset{})

  lemma FirstIsRead()
    ensures Next(Next(NIGHT, Arrive(NOTE)), Mint(0)) == FIRST
    ensures AfterPoll(FIRST.rows, REPOS, Daemon(0, map[]), None) == READ
  {
    var rows := FIRST.rows;
    assert rows[..0] == [];
    assert Backlog(rows, REPOS, 0) == [Note(0, 0)];
    assert [Note(0, 0)][..0] == [];
  }

  lemma FirstIsSwept()
    ensures Next(LATER, Sweep) == GONE
  {
    var rows, f := LATER.rows, SweepOld(LATER.now);
    assert f(rows[0]) == None && rows[..0] == [];
    assert Rewrite(rows, f) == [] && Shed(rows, f) == multiset{};
  }

  lemma SecondIsMissed()
    ensures Next(Next(GONE, Arrive(NOTE)), Mint(1)) == SECOND
    ensures AfterPoll(SECOND.rows, REPOS, READ, None) == READ
    ensures Lost(System(SECOND, READ), REPOS, Note(1, ROW_TTL + 1))
  {
    var rows := SECOND.rows;
    NothingPast(rows, REPOS, 1);
    CeilingIsMax(rows, REPOS);
    assert rows[0] in rows;
  }

  const RUN := [Server(Arrive(NOTE)), Server(Mint(0)), Poll(None), Server(Tick(ROW_TTL + 1)), Server(Sweep),
                Server(Arrive(NOTE)), Server(Mint(1)), Poll(None)]

  lemma RunSystemCons(s: System, repos: set<string>, step: SystemStep, rest: seq<SystemStep>)
    ensures RunSystem(s, repos, [step] + rest) == RunSystem(NextSystem(s, repos, step), repos, rest)
  {
    assert ([step] + rest)[1..] == rest;
  }

  lemma RunSystemFour(s: System, repos: set<string>, a: SystemStep, b: SystemStep, c: SystemStep, d: SystemStep,
                      rest: seq<SystemStep>)
    ensures RunSystem(s, repos, [a, b, c, d] + rest)
         == RunSystem(NextSystem(NextSystem(NextSystem(NextSystem(s, repos, a), repos, b), repos, c), repos, d), repos,
                      rest)
  {
    assert [a, b, c, d] + rest == [a] + ([b] + ([c] + ([d] + rest)));
    var s1 := NextSystem(s, repos, a);
    var s2 := NextSystem(s1, repos, b);
    var s3 := NextSystem(s2, repos, c);
    RunSystemCons(s, repos, a, [b] + ([c] + ([d] + rest)));
    RunSystemCons(s1, repos, b, [c] + ([d] + rest));
    RunSystemCons(s2, repos, c, [d] + rest);
    RunSystemCons(s3, repos, d, rest);
  }

  lemma FirstFourSteps(later: seq<SystemStep>)
    ensures RunSystem(System(NIGHT, Daemon(0, map[])), REPOS,
                      [Server(Arrive(NOTE)), Server(Mint(0)), Poll(None), Server(Tick(ROW_TTL + 1))] + later)
         == RunSystem(System(LATER, READ), REPOS, later)
  {
    FirstIsRead();
    var start := System(NIGHT, Daemon(0, map[]));
    RunSystemFour(start, REPOS, Server(Arrive(NOTE)), Server(Mint(0)), Poll(None), Server(Tick(ROW_TTL + 1)), later);
  }

  lemma LastFourSteps()
    ensures RunSystem(System(LATER, READ), REPOS,
                      [Server(Sweep), Server(Arrive(NOTE)), Server(Mint(1)), Poll(None)] + [])
         == System(SECOND, READ)
  {
    FirstIsSwept();
    SecondIsMissed();
    RunSystemFour(System(LATER, READ), REPOS, Server(Sweep), Server(Arrive(NOTE)), Server(Mint(1)), Poll(None), []);
  }

  /** One event, read by the daemon; ninety days; a sweep; one more event. No merge is in flight, and the second
      event never reaches the daemon. */
  lemma SecondEventIsLost()
    ensures Lost(RunSystem(System(NIGHT, Daemon(0, map[])), REPOS, RUN), REPOS, Note(1, ROW_TTL + 1))
  {
    var later := [Server(Sweep), Server(Arrive(NOTE)), Server(Mint(1)), Poll(None)] + [];
    assert RUN == [Server(Arrive(NOTE)), Server(Mint(0)), Poll(None), Server(Tick(ROW_TTL + 1))] + later;
    FirstFourSteps(later);
    LastFourSteps();
    SecondIsMissed();
  }
}
