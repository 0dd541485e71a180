// What every run of the gate lock guarantees, and a run in which two processes hold it.
module GateGuarantees {
  import opened Wrappers
  import opened GateLock
  import Text

  // ---------------------------------------------------------------- holders

  ghost function Holders(w: World): set<Pid> {
    set p | 0 <= p < |w.procs| && Holds(w, p)
  }

  /** Holders own the exclusive locks of pairwise distinct files; one of them at most holds the file
      the path names, and a break unlinked each other one while it was held. */
  lemma HoldersAreApart(steps: seq<Step>, p: Pid, q: Pid)
    requires Holds(Run(EMPTY, steps), p) && Holds(Run(EMPTY, steps), q)
    ensures var w := Run(EMPTY, steps);
      && w.procs[p].fd.Some? && w.procs[q].fd.Some?
      && w.procs[p].fd.value in w.locks && w.locks[w.procs[p].fd.value] == p
      && (p != q ==> w.procs[p].fd != w.procs[q].fd)
      && (p != q ==> w.procs[p].fd.value in w.hit || w.procs[q].fd.value in w.hit)
      && (w.procs[p].fd == w.path || w.procs[p].fd.value in w.hit)
  {
    RunKeepsInv(EMPTY, steps);
    var w := Run(EMPTY, steps);
    assert ProcInv(w, p) && ProcInv(w, q);
  }

  ghost function FilesHeld(w: World, holders: set<Pid>): set<File>
    requires forall p :: p in holders ==> p < |w.procs| && w.procs[p].fd.Some?
  {
    set p | p in holders :: w.procs[p].fd.value
  }

  lemma OneFileMore(w: World, holders: set<Pid>, p: Pid)
    requires Inv(w) && holders + {p} <= Holders(w) && p !in holders
    requires forall q :: q in holders + {p} ==> q < |w.procs| && w.procs[q].fd.Some?
    ensures FilesHeld(w, holders + {p}) == FilesHeld(w, holders) + {w.procs[p].fd.value}
    ensures w.procs[p].fd.value !in FilesHeld(w, holders)
  {
    assert forall q :: q in holders + {p} ==> ProcInv(w, q);
  }

  lemma {:induction false} OneFileEach(w: World, holders: set<Pid>)
    requires Inv(w) && holders <= Holders(w)
    ensures forall p :: p in holders ==> p < |w.procs| && w.procs[p].fd.Some?
    ensures |FilesHeld(w, holders)| == |holders|
  {
    assert forall p :: p in holders ==> ProcInv(w, p);
    if holders != {} {
      var p :| p in holders;
      OneFileEach(w, holders - {p});
      OneFileMore(w, holders - {p}, p);
      assert holders - {p} + {p} == holders;
    }
  }

  lemma {:induction false} SubsetSize(a: set<File>, b: set<File>)
    requires a <= b
    ensures |a| <= |b|
  {
    if a != {} {
      var x :| x in a;
      SubsetSize(a - {x}, b - {x});
    }
  }

  /** Never more holders than one plus the held files that breaks unlinked. */
  lemma HoldersAtMostOnePlusHits(steps: seq<Step>)
    ensures |Holders(Run(EMPTY, steps))| <= 1 + |Run(EMPTY, steps).hit|
  {
    RunKeepsInv(EMPTY, steps);
    var w := Run(EMPTY, steps);
    OneFileEach(w, Holders(w));
    assert forall p :: p in Holders(w) ==> ProcInv(w, p);
    var current := if w.path.Some? then {w.path.value} else {};
    SubsetSize(FilesHeld(w, Holders(w)), w.hit + current);
  }

  // ---------------------------------------------------------------- breaks

  /** The file a step unlinks, if it is a break. */
  function BreakOf(w: World, step: Step): Option<File> {
    if step.Act? && step.p < |w.procs| && w.procs[step.p].pc.UnlinkLock? && !step.env.fails then w.path else None
  }

  /** The files a run breaks, in order. */
  function Breaks(w: World, steps: seq<Step>): seq<File> {
    if steps == [] then []
    else
      var before := Run(w, steps[..|steps| - 1]);
      var broke := BreakOf(before, steps[|steps| - 1]);
      Breaks(w, steps[..|steps| - 1]) + if broke.Some? then [broke.value] else []
  }

  /** A break unlinks the file its own descriptor names, one no break unlinked before, and
      nothing but a break takes a name away. */
  lemma BreakIsOwnAndFresh(w: World, step: Step)
    requires Inv(w)
    ensures BreakOf(w, step).Some? ==>
      && w.procs[step.p].fd == w.path == BreakOf(w, step)
      && BreakOf(w, step).value !in w.broken
      && w.reap == Some(step.p)
    ensures Next(w, step).broken == w.broken + if BreakOf(w, step).Some? then {BreakOf(w, step).value} else {}
    ensures w.path.Some? && BreakOf(w, step) == None ==> Next(w, step).path == w.path
    ensures Next(w, step).hit == w.hit + if BreakOf(w, step).Some? && HeldFile(w, w.path.value) then {w.path.value}
      else {}
  {
    if step.Act? && step.p < |w.procs| {
      assert ProcInv(w, step.p);
    }
  }

  /** Competing reapers break every file at most once. */
  lemma {:induction false} EachFileBreaksOnce(steps: seq<Step>)
    ensures forall i, j :: 0 <= i < j < |Breaks(EMPTY, steps)| ==> Breaks(EMPTY, steps)[i] != Breaks(EMPTY, steps)[j]
    ensures forall f :: f in Breaks(EMPTY, steps) <==> f in Run(EMPTY, steps).broken
    ensures |Run(EMPTY, steps).broken| == |Breaks(EMPTY, steps)|
  {
    if steps != [] {
      var init, last := steps[..|steps| - 1], steps[|steps| - 1];
      EachFileBreaksOnce(init);
      RunKeepsInv(EMPTY, init);
      var w := Run(EMPTY, init);
      BreakIsOwnAndFresh(w, last);
      var broke := BreakOf(w, last);
      if broke.Some? {
        assert Breaks(EMPTY, steps) == Breaks(EMPTY, init) + [broke.value];
        assert broke.value !in Breaks(EMPTY, init);
      } else {
        assert Breaks(EMPTY, steps) == Breaks(EMPTY, init);
      }
    }
  }

  /** Holders never exceed one plus the number of breaks, and without a break the lock is
      mutually exclusive. */
  lemma HoldersAtMostOnePlusBreaks(steps: seq<Step>)
    ensures |Holders(Run(EMPTY, steps))| <= 1 + |Breaks(EMPTY, steps)|
    ensures Breaks(EMPTY, steps) == [] ==>
      forall p, q :: Holds(Run(EMPTY, steps), p) && Holds(Run(EMPTY, steps), q) ==> p == q
  {
    HoldersAtMostOnePlusHits(steps);
    EachFileBreaksOnce(steps);
    RunKeepsInv(EMPTY, steps);
    SubsetSize(Run(EMPTY, steps).hit, Run(EMPTY, steps).broken);
    if Breaks(EMPTY, steps) == [] {
      forall p, q | Holds(Run(EMPTY, steps), p) && Holds(Run(EMPTY, steps), q) ensures p == q {
        HoldersAreApart(steps, p, q);
      }
    }
  }

  /** A step in which no break unlinks a held file. */
  ghost predicate HitsNobody(w: World, step: Step) {
    BreakOf(w, step).Some? ==> !HeldFile(w, BreakOf(w, step).value)
  }

  ghost predicate RunHitsNobody(steps: seq<Step>) {
    forall i :: 0 <= i < |steps| ==> HitsNobody(Run(EMPTY, steps[..i]), steps[i])
  }

  lemma {:induction false} NoHits(steps: seq<Step>)
    requires RunHitsNobody(steps)
    ensures Run(EMPTY, steps).hit == {}
  {
    if steps != [] {
      var init, last := steps[..|steps| - 1], steps[|steps| - 1];
      assert RunHitsNobody(init) by {
        forall i | 0 <= i < |init| ensures HitsNobody(Run(EMPTY, init[..i]), init[i]) {
          assert init[..i] == steps[..i];
          assert HitsNobody(Run(EMPTY, steps[..i]), steps[i]);
        }
      }
      NoHits(init);
      RunKeepsInv(EMPTY, init);
      assert HitsNobody(Run(EMPTY, steps[..|steps| - 1]), steps[|steps| - 1]);
      BreakIsOwnAndFresh(Run(EMPTY, init), last);
    }
  }

  /** Breaks of files nobody holds are harmless: mutual exclusion needs no more than that. */
  lemma ExclusiveUnlessAHolderIsHit(steps: seq<Step>, p: Pid, q: Pid)
    requires RunHitsNobody(steps)
    requires Holds(Run(EMPTY, steps), p) && Holds(Run(EMPTY, steps), q)
    ensures p == q
  {
    NoHits(steps);
    HoldersAreApart(steps, p, q);
  }

  // ---------------------------------------------------------------- who is hit

  /** The judgement of a recorded owner is right: its process has left or died. */
  ghost predicate Truthful(w: World, step: Step) {
    step.Act? && step.p < |w.procs| && w.procs[step.p].pc.Judge? && LooksStale(w.status, step.env) ==>
      w.status.value.author < |w.procs| && w.procs[w.status.value.author].pc.Gone?
  }

  ghost predicate TruthfulRun(steps: seq<Step>) {
    steps != [] ==>
      TruthfulRun(steps[..|steps| - 1]) && Truthful(Run(EMPTY, steps[..|steps| - 1]), steps[|steps| - 1])
  }

  /** Whoever a reaper has condemned is gone, and stays gone. */
  ghost predicate CondemnedAreGone(w: World) {
    forall p :: 0 <= p < |w.procs| && (w.procs[p].pc.ReapConfirm? || w.procs[p].pc.UnlinkLock?) ==>
      w.procs[p].pc.judged < |w.procs| && w.procs[w.procs[p].pc.judged].pc.Gone?
  }

  lemma ActKeepsTheirNumber(w: World, actor: Pid, env: Env)
    requires actor < |w.procs|
    ensures |Acted(w, actor, env).procs| == |w.procs|
  {
  }

  /** Whoever is past its first system call was there before the step. */
  lemma OnlyNewcomersAreNew(w: World, step: Step, p: Pid)
    requires p < |Next(w, step).procs| && !Next(w, step).procs[p].pc.FirstOpen?
    ensures p < |w.procs|
  {
    if step.Act? && step.p < |w.procs| { ActKeepsTheirNumber(w, step.p, step.env); }
  }

  /** A step moves one process: the others keep their place, and the gone are never moved. */
  lemma OnlyTheActorMoves(w: World, step: Step, p: Pid)
    requires p < |w.procs| && (w.procs[p].pc.Gone? || step.Enter? || step.p != p)
    ensures p < |Next(w, step).procs| && Next(w, step).procs[p].pc == w.procs[p].pc
  {
    if step.Act? && step.p < |w.procs| && step.p != p { ActLeavesOthers(w, step.p, step.env, p); }
  }

  lemma ActLeavesOthers(w: World, actor: Pid, env: Env, p: Pid)
    requires actor < |w.procs| && p < |w.procs| && p != actor
    ensures |Acted(w, actor, env).procs| == |w.procs| && Acted(w, actor, env).procs[p] == w.procs[p]
  {
  }

  /** Being about to confirm or to unlink, the actor judged just now or was already past judging. */
  lemma ActorJudged(w: World, p: Pid, env: Env)
    requires p < |w.procs|
    requires var pc := Acted(w, p, env).procs[p].pc; pc.ReapConfirm? || pc.UnlinkLock?
    ensures var pc := Acted(w, p, env).procs[p].pc;
      if w.procs[p].pc.Judge? then LooksStale(w.status, env) && pc.judged == w.status.value.author
      else (w.procs[p].pc.ReapConfirm? || w.procs[p].pc.UnlinkLock?) && pc.judged == w.procs[p].pc.judged
  {
    var pc := w.procs[p].pc;
    if !pc.Judge? && !pc.ReapConfirm? {
      if Breaking(pc) { BreakerNotJudging(w, p, env); } else { QueuerNotJudging(w, p, env); }
    }
  }

  lemma BreakerNotJudging(w: World, p: Pid, env: Env)
    requires p < |w.procs| && Breaking(w.procs[p].pc) && !w.procs[p].pc.Judge? && !w.procs[p].pc.ReapConfirm?
    ensures var pc := Acted(w, p, env).procs[p].pc; !pc.ReapConfirm? && !pc.UnlinkLock?
  {
  }

  lemma QueuerNotJudging(w: World, p: Pid, env: Env)
    requires p < |w.procs| && !Breaking(w.procs[p].pc)
    ensures var pc := Acted(w, p, env).procs[p].pc; !pc.ReapConfirm? && !pc.UnlinkLock?
  {
  }

  /** After a step, whoever a process has condemned was condemned before, or was judged rightly just now. */
  lemma CondemnedWasGone(w: World, step: Step, p: Pid)
    requires CondemnedAreGone(w) && Truthful(w, step) && p < |Next(w, step).procs|
    requires var pc := Next(w, step).procs[p].pc; pc.ReapConfirm? || pc.UnlinkLock?
    ensures var judged := Next(w, step).procs[p].pc.judged; judged < |w.procs| && w.procs[judged].pc.Gone?
  {
    OnlyNewcomersAreNew(w, step, p);
    if step.Act? && step.p == p {
      ActorJudged(w, p, step.env);
    } else {
      OnlyTheActorMoves(w, step, p);
    }
  }

  lemma StepKeepsCondemned(w: World, step: Step)
    requires CondemnedAreGone(w) && Truthful(w, step)
    ensures CondemnedAreGone(Next(w, step))
  {
    var v := Next(w, step);
    forall p | 0 <= p < |v.procs| && (v.procs[p].pc.ReapConfirm? || v.procs[p].pc.UnlinkLock?)
      ensures v.procs[p].pc.judged < |v.procs| && v.procs[v.procs[p].pc.judged].pc.Gone?
    {
      CondemnedWasGone(w, step, p);
      OnlyTheActorMoves(w, step, v.procs[p].pc.judged);
    }
  }

  lemma {:induction false} RunKeepsCondemned(steps: seq<Step>)
    requires TruthfulRun(steps)
    ensures CondemnedAreGone(Run(EMPTY, steps))
  {
    if steps != [] {
      var n := |steps| - 1;
      RunKeepsCondemned(steps[..n]);
      StepKeepsCondemned(Run(EMPTY, steps[..n]), steps[n]);
    }
  }

  /** When owners are judged rightly, the holder a break hits is never the recorded owner that was
      judged stale: the sidecar still named a predecessor. */
  lemma HitHolderWasNotTheOneJudged(steps: seq<Step>, step: Step, victim: Pid)
    requires TruthfulRun(steps)
    requires BreakOf(Run(EMPTY, steps), step).Some? && Holds(Run(EMPTY, steps), victim)
    ensures victim != Run(EMPTY, steps).procs[step.p].pc.judged
    ensures victim != step.p
  {
    RunKeepsCondemned(steps);
  }

  // ---------------------------------------------------------------- two holders

  ghost predicate Reaches(steps: seq<Step>, w: World) {
    Run(EMPTY, steps) == w && TruthfulRun(steps)
  }

  lemma ReachesNext(steps: seq<Step>, w: World, step: Step)
    requires Reaches(steps, w) && Truthful(w, step)
    ensures Reaches(steps + [step], Next(w, step))
  {
    assert (steps + [step])[..|steps|] == steps;
  }

  /** Let process `p` take `n` steps in the same environment. */
  function Acts(w: World, p: Pid, env: Env, n: nat): World {
    if n == 0 then w else Next(Acts(w, p, env, n - 1), Act(p, env))
  }

  ghost predicate JudgesRightly(w: World, p: Pid, env: Env, n: nat) {
    n > 0 ==> JudgesRightly(w, p, env, n - 1) && Truthful(Acts(w, p, env, n - 1), Act(p, env))
  }

  lemma {:induction false} ReachesActs(steps: seq<Step>, w: World, p: Pid, env: Env, n: nat) returns (more: seq<Step>)
    requires Reaches(steps, w) && JudgesRightly(w, p, env, n)
    ensures Reaches(more, Acts(w, p, env, n))
  {
    if n == 0 { return steps; }
    more := ReachesActs(steps, w, p, env, n - 1);
    ReachesNext(more, Acts(w, p, env, n - 1), Act(p, env));
    more := more + [Act(p, env)];
  }

  const YOUNG := Env(0, false, false)
  const STALE := Env(1, true, false)
  const LEFT := Proc(Gone, None, "a")
  const SECOND := Proc(WriteStatus, Some(0), "b")

  /** The first holder came and left; its status stayed. */
  const AFTER_FIRST := World([LEFT], [0], Some(0), map[], None, Some(Record(0, "a")), {}, {})
  /** The second holds the lock and has not written its status yet. */
  const AFTER_SECOND := World([LEFT, SECOND], [0], Some(0), map[0 := 1], None, Some(Record(0, "a")), {}, {})
  /** The third judged the first's record, broke the second's lock and took a new one. */
  const AFTER_THIRD :=
    World([LEFT, SECOND, Proc(WriteStatus, Some(1), "c")], [0, 1], Some(1), map[0 := 1, 1 := 2], None, None, {0}, {0})

  function First(pc: Pc, locks: map<File, Pid>): World {
    World([Proc(pc, Some(0), "a")], [0], Some(0), locks, None, None, {}, {})
  }

  lemma FirstLocks()
    ensures Acts(Next(EMPTY, Enter("a")), 0, YOUNG, 3) == First(Recheck, map[0 := 0])
    ensures JudgesRightly(Next(EMPTY, Enter("a")), 0, YOUNG, 3)
  {
    var w := Next(EMPTY, Enter("a"));
    assert Acts(w, 0, YOUNG, 1) == First(Check, map[]);
    assert Acts(w, 0, YOUNG, 2) == First(TryLock, map[]);
    assert JudgesRightly(w, 0, YOUNG, 2);
  }

  lemma FirstHolds()
    ensures Next(First(Recheck, map[0 := 0]), Act(0, YOUNG)) == First(WriteStatus, map[0 := 0])
    ensures Next(First(WriteStatus, map[0 := 0]), Act(0, YOUNG)) ==
      First(Inside, map[0 := 0]).(status := Some(Record(0, "a")))
  {
    assert NamesCurrent(First(Recheck, map[0 := 0]), Some(0));
  }

  lemma FirstLeaves()
    ensures Next(First(Inside, map[0 := 0]).(status := Some(Record(0, "a"))), Act(0, YOUNG)) == AFTER_FIRST
  {
    assert LocksWithout(map[0 := 0], 0) == map[];
  }

  lemma FirstComesAndGoes()
    ensures Acts(Next(EMPTY, Enter("a")), 0, YOUNG, 6) == AFTER_FIRST
    ensures JudgesRightly(Next(EMPTY, Enter("a")), 0, YOUNG, 6)
  {
    var w := Next(EMPTY, Enter("a"));
    FirstLocks();
    FirstHolds();
    FirstLeaves();
    assert Acts(w, 0, YOUNG, 4) == First(WriteStatus, map[0 := 0]);
    assert JudgesRightly(w, 0, YOUNG, 4);
    assert Acts(w, 0, YOUNG, 5) == First(Inside, map[0 := 0]).(status := Some(Record(0, "a")));
  }

  function Second(pc: Pc, locks: map<File, Pid>): World {
    AFTER_FIRST.(procs := [LEFT, Proc(pc, Some(0), "b")], locks := locks)
  }

  lemma SecondTakesTheLock()
    ensures Acts(Next(AFTER_FIRST, Enter("b")), 1, YOUNG, 4) == AFTER_SECOND
    ensures JudgesRightly(Next(AFTER_FIRST, Enter("b")), 1, YOUNG, 4)
  {
    var w := Next(AFTER_FIRST, Enter("b"));
    assert Acts(w, 1, YOUNG, 1) == Second(Check, map[]);
    assert Acts(w, 1, YOUNG, 2) == Second(TryLock, map[]);
    assert Acts(w, 1, YOUNG, 3) == Second(Recheck, map[0 := 1]);
    assert JudgesRightly(w, 1, YOUNG, 2);
  }

  function Third(pc: Pc, reap: Option<Pid>): World {
    AFTER_SECOND.(procs := [LEFT, SECOND, Proc(pc, Some(0), "c")], reap := reap)
  }

  lemma ThirdOpens()
    ensures Acts(Next(AFTER_SECOND, Enter("c")), 2, STALE, 2) == Third(TryLock, None)
    ensures JudgesRightly(Next(AFTER_SECOND, Enter("c")), 2, STALE, 2)
  {
    assert Acts(Next(AFTER_SECOND, Enter("c")), 2, STALE, 1) == Third(Check, None);
  }

  lemma FirstNamedARun()
    ensures !Text.Blank("a")
  {
    assert !Text.IsSpace("a"[0]);
  }

  lemma ThirdQueues()
    ensures Acts(Third(TryLock, None), 2, STALE, 2) == Third(Confirm, None)
    ensures JudgesRightly(Third(TryLock, None), 2, STALE, 2)
  {
    FirstNamedARun();
    assert Acts(Third(TryLock, None), 2, STALE, 1) == Third(ReadStatus, None);
  }

  lemma ThirdBecomesReaper()
    ensures Acts(Third(Confirm, None), 2, STALE, 2) == Third(Judge, Some(2))
    ensures JudgesRightly(Third(Confirm, None), 2, STALE, 2)
  {
    assert Acts(Third(Confirm, None), 2, STALE, 1) == Third(AwaitReap, None);
  }

  lemma ThirdJudges()
    ensures Acts(Third(Judge, Some(2)), 2, STALE, 2) == Third(UnlinkLock(0), Some(2))
    ensures JudgesRightly(Third(Judge, Some(2)), 2, STALE, 2)
  {
    FirstNamedARun();
    assert Acts(Third(Judge, Some(2)), 2, STALE, 1) == Third(ReapConfirm(0), Some(2));
  }

  function Broken(pc: Pc, fd: Option<File>, reap: Option<Pid>): World {
    World([LEFT, SECOND, Proc(pc, fd, "c")], [0], None, map[0 := 1], reap, None, {0}, {0})
  }

  const LOCK_GONE := Broken(UnlinkStatus, Some(0), Some(2)).(status := Some(Record(0, "a")))

  lemma ThirdBreaks()
    ensures Acts(Third(UnlinkLock(0), Some(2)), 2, STALE, 1) == LOCK_GONE
    ensures JudgesRightly(Third(UnlinkLock(0), Some(2)), 2, STALE, 1)
  {
    var w := Third(UnlinkLock(0), Some(2));
    assert Holds(w, 1) && w.procs[1].fd == Some(0);
    assert Acts(w, 2, STALE, 0) == w;
  }

  lemma ThirdCleansUp()
    ensures Acts(LOCK_GONE, 2, STALE, 2) == Broken(Check, Some(0), None)
    ensures JudgesRightly(LOCK_GONE, 2, STALE, 2)
  {
    assert Acts(LOCK_GONE, 2, STALE, 1) == Broken(ReleaseReap, Some(0), Some(2));
  }

  lemma ThirdLetsGo()
    ensures Acts(Broken(Check, Some(0), None), 2, STALE, 2) == Broken(Reopen, None, None)
    ensures JudgesRightly(Broken(Check, Some(0), None), 2, STALE, 2)
  {
    assert Acts(Broken(Check, Some(0), None), 2, STALE, 1) == Broken(Close, Some(0), None);
    assert LocksWithout(map[0 := 1], 2) == map[0 := 1];
  }

  lemma ThirdTakesANewFile()
    ensures Acts(Broken(Reopen, None, None), 2, STALE, 3) == AFTER_THIRD
    ensures JudgesRightly(Broken(Reopen, None, None), 2, STALE, 3)
  {
    var w := Broken(Reopen, None, None);
    assert Acts(w, 2, STALE, 1) ==
      AFTER_THIRD.(procs := [LEFT, SECOND, Proc(TryLock, Some(1), "c")], locks := map[0 := 1]);
    assert Acts(w, 2, STALE, 2) == AFTER_THIRD.(procs := [LEFT, SECOND, Proc(Recheck, Some(1), "c")]);
  }

  /** Plain mutual exclusion fails, even when every judgement of a recorded owner is right: the
      status of the previous holder outlives its release until the next holder writes its own. */
  lemma TwoCanHold() returns (steps: seq<Step>)
    ensures TruthfulRun(steps)
    ensures Holds(Run(EMPTY, steps), 1) && Holds(Run(EMPTY, steps), 2)
    ensures |Breaks(EMPTY, steps)| == 1
  {
    assert Reaches([], EMPTY);
    ReachesNext([], EMPTY, Enter("a"));
    FirstComesAndGoes();
    steps := ReachesActs([] + [Enter("a")], Next(EMPTY, Enter("a")), 0, YOUNG, 6);
    ReachesNext(steps, AFTER_FIRST, Enter("b"));
    SecondTakesTheLock();
    steps := ReachesActs(steps + [Enter("b")], Next(AFTER_FIRST, Enter("b")), 1, YOUNG, 4);
    ReachesNext(steps, AFTER_SECOND, Enter("c"));
    ThirdOpens();
    steps := ReachesActs(steps + [Enter("c")], Next(AFTER_SECOND, Enter("c")), 2, STALE, 2);
    ThirdQueues();
    steps := ReachesActs(steps, Third(TryLock, None), 2, STALE, 2);
    ThirdBecomesReaper();
    steps := ReachesActs(steps, Third(Confirm, None), 2, STALE, 2);
    ThirdJudges();
    steps := ReachesActs(steps, Third(Judge, Some(2)), 2, STALE, 2);
    ThirdBreaks();
    steps := ReachesActs(steps, Third(UnlinkLock(0), Some(2)), 2, STALE, 1);
    ThirdCleansUp();
    steps := ReachesActs(steps, LOCK_GONE, 2, STALE, 2);
    ThirdLetsGo();
    steps := ReachesActs(steps, Broken(Check, Some(0), None), 2, STALE, 2);
    ThirdTakesANewFile();
    steps := ReachesActs(steps, Broken(Reopen, None, None), 2, STALE, 3);
    EachFileBreaksOnce(steps);
    assert Run(EMPTY, steps).broken == {0};
  }
}
