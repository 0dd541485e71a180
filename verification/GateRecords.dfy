// Whom a breaker takes the lock from: only the holder a status record names, and only if that record
// names a run.
module GateRecords {
  import opened Wrappers
  import opened Text
  import opened GateLock
  import opened GateGuarantees

  /** Reading the record, a queued process goes on to break if and only if there is a record, it names a run, and its
      owner looks dead or long finished; so does the reaper, on what the record says then. */
  lemma JudgesNamedRunsOnly(w: World, p: Pid, env: Env)
    requires p < |w.procs|
    ensures var named := w.status.Some? && Speaks(w.status.value.run) && env.stale;
            var next := Acted(w, p, env);
      && (w.procs[p].pc == ReadStatus ==>
            next == w.(procs := w.procs[p := w.procs[p].(pc := if named then Confirm else Check)]))
      && (w.procs[p].pc == Judge && named ==>
            next == w.(procs := w.procs[p := w.procs[p].(pc := ReapConfirm(w.status.value.author))]))
      && (w.procs[p].pc == Judge && !named ==>
            next == w.(procs := w.procs[p := w.procs[p].(pc := ReleaseReap)]))
  {
    if w.status.Some? { BlankIsSilent(w.status.value.run); }
  }

  // ---------------------------------------------------------------- what a record says

  ghost predicate NamesARun(w: World, p: Pid) {
    p < |w.procs| && Speaks(w.procs[p].run)
  }

  /** Between a judgement and the return from the breaker. */
  predicate PastJudging(pc: Pc) {
    pc.Confirm? || pc.AwaitReap? || UnderReap(pc)
  }

  /** The record is its author's own, and whoever is on the way to a break has judged an owner that named a run. */
  ghost predicate RecordsOk(w: World) {
    && (w.status.Some? ==>
          w.status.value.author < |w.procs| && w.procs[w.status.value.author].run == w.status.value.run)
    && (forall p :: 0 <= p < |w.procs| && (w.procs[p].pc.ReapConfirm? || w.procs[p].pc.UnlinkLock?) ==>
          NamesARun(w, w.procs[p].pc.judged))
    && (forall p :: 0 <= p < |w.procs| && PastJudging(w.procs[p].pc) ==> exists q :: NamesARun(w, q))
  }

  /** A process keeps the run it entered with. */
  lemma RunsStay(w: World, step: Step)
    ensures |w.procs| <= |Next(w, step).procs|
    ensures forall p :: 0 <= p < |w.procs| ==> Next(w, step).procs[p].run == w.procs[p].run
  {
    if step.Act? && step.p < |w.procs| {
      forall p | 0 <= p < |w.procs| && p != step.p ensures Next(w, step).procs[p] == w.procs[p] {
        ActLeavesOthers(w, step.p, step.env, p);
      }
      ActorKeepsItsRun(w, step.p, step.env);
    }
  }

  lemma ActorKeepsItsRun(w: World, p: Pid, env: Env)
    requires p < |w.procs|
    ensures |Acted(w, p, env).procs| == |w.procs| && Acted(w, p, env).procs[p].run == w.procs[p].run
  {
  }

  lemma RecordIsTheActors(w: World, p: Pid, env: Env)
    requires p < |w.procs| && Acted(w, p, env).status.Some?
    ensures Acted(w, p, env).status == w.status || Acted(w, p, env).status == Some(Record(p, w.procs[p].run))
  {
  }

  lemma RecordsAreOwn(w: World, step: Step)
    requires RecordsOk(w)
    ensures var v := Next(w, step);
      v.status.Some? ==> v.status.value.author < |v.procs| && v.procs[v.status.value.author].run == v.status.value.run
  {
    RunsStay(w, step);
    if step.Act? && step.p < |w.procs| && Next(w, step).status.Some? { RecordIsTheActors(w, step.p, step.env); }
  }

  /** A process is past judging because it was, or because it has just judged a record that names a run. */
  lemma PastJudgingBecause(w: World, p: Pid, env: Env)
    requires p < |w.procs| && PastJudging(Acted(w, p, env).procs[p].pc)
    ensures PastJudging(w.procs[p].pc)
      || (w.procs[p].pc == ReadStatus && w.status.Some? && Speaks(w.status.value.run))
  {
    JudgesNamedRunsOnly(w, p, env);
  }

  lemma StepKeepsRecords(w: World, step: Step)
    requires RecordsOk(w)
    ensures RecordsOk(Next(w, step))
  {
    var v := Next(w, step);
    RunsStay(w, step);
    RecordsAreOwn(w, step);
    forall p | 0 <= p < |v.procs| && (v.procs[p].pc.ReapConfirm? || v.procs[p].pc.UnlinkLock?)
      ensures NamesARun(v, v.procs[p].pc.judged) {
      CondemnedNamedARun(w, step, p);
    }
    forall p | 0 <= p < |v.procs| && PastJudging(v.procs[p].pc) ensures exists q :: NamesARun(v, q) {
      SomebodyNamedARun(w, step, p);
      var q :| NamesARun(w, q);
      assert NamesARun(v, q);
    }
  }

  lemma CondemnedNamedARun(w: World, step: Step, p: Pid)
    requires RecordsOk(w) && p < |Next(w, step).procs|
    requires var pc := Next(w, step).procs[p].pc; pc.ReapConfirm? || pc.UnlinkLock?
    ensures NamesARun(w, Next(w, step).procs[p].pc.judged)
  {
    OnlyNewcomersAreNew(w, step, p);
    if step.Act? && step.p == p {
      ActorCondemned(w, p, step.env);
    } else {
      OnlyTheActorMoves(w, step, p);
    }
  }

  lemma ActorCondemned(w: World, p: Pid, env: Env)
    requires RecordsOk(w) && p < |w.procs|
    requires var pc := Acted(w, p, env).procs[p].pc; pc.ReapConfirm? || pc.UnlinkLock?
    ensures NamesARun(w, Acted(w, p, env).procs[p].pc.judged)
  {
    ActorJudged(w, p, env);
    if w.status.Some? { BlankIsSilent(w.status.value.run); }
  }

  lemma SomebodyNamedARun(w: World, step: Step, p: Pid)
    requires RecordsOk(w) && p < |Next(w, step).procs| && PastJudging(Next(w, step).procs[p].pc)
    ensures exists q :: NamesARun(w, q)
  {
    OnlyNewcomersAreNew(w, step, p);
    if step.Act? && step.p == p {
      ActorSawARun(w, p, step.env);
    } else {
      OnlyTheActorMoves(w, step, p);
    }
  }

  lemma ActorSawARun(w: World, p: Pid, env: Env)
    requires RecordsOk(w) && p < |w.procs| && PastJudging(Acted(w, p, env).procs[p].pc)
    ensures exists q :: NamesARun(w, q)
  {
    PastJudgingBecause(w, p, env);
    if !PastJudging(w.procs[p].pc) { assert NamesARun(w, w.status.value.author); }
  }

  lemma {:induction false} RunKeepsRecords(steps: seq<Step>)
    ensures RecordsOk(Run(EMPTY, steps))
  {
    if steps != [] {
      RunKeepsRecords(steps[..|steps| - 1]);
      StepKeepsRecords(Run(EMPTY, steps[..|steps| - 1]), steps[|steps| - 1]);
    }
  }

  /** In every run a lock is broken only because of a process that entered with a run id and wrote the record. */
  lemma BrokenOwnerHadARun(steps: seq<Step>, step: Step)
    requires BreakOf(Run(EMPTY, steps), step).Some?
    ensures NamesARun(Run(EMPTY, steps), Run(EMPTY, steps).procs[step.p].pc.judged)
  {
    RunKeepsRecords(steps);
  }

  // ---------------------------------------------------------------- numbers and hits

  /** A new lock file may get the number of one that is gone: no name and no descriptor of it is left. */
  lemma NumberIsGivenAgain(w: World, p: Pid, env: Env, pc: Pc)
    requires p < |w.procs| && w.path == None
    requires forall f, q :: 0 <= f < |w.files| && w.files[f] == env.ino && 0 <= q < |w.procs| ==>
      w.procs[q].fd != Some(f)
    ensures var v := Opened(w, p, env, pc);
      && v.files == w.files + [env.ino] && v.path == Some(|w.files|)
      && v.procs == w.procs[p := Proc(pc, Some(|w.files|), w.procs[p].run)]
  {
  }

  /** A break hits somebody exactly when a process past its recheck has the unlinked file open. */
  lemma HitIsAHolder(w: World, p: Pid, env: Env)
    requires Inv(w) && p < |w.procs| && w.procs[p].pc.UnlinkLock? && !env.fails
    ensures w.path.Some?
    ensures w.path.value in Acted(w, p, env).hit <==>
      exists q :: 0 <= q < |w.procs| && (w.procs[q].pc == WriteStatus || w.procs[q].pc == Inside)
                  && w.procs[q].fd == w.path
  {
    assert ProcInv(w, p);
    if q :| 0 <= q < |w.procs| && (w.procs[q].pc == WriteStatus || w.procs[q].pc == Inside)
            && w.procs[q].fd == w.path {
      assert Holds(w, q);
    }
  }

  // ---------------------------------------------------------------- without run ids

  ghost predicate Nameless(steps: seq<Step>) {
    forall i :: 0 <= i < |steps| && steps[i].Enter? ==> !Speaks(steps[i].run)
  }

  lemma {:induction false} NobodyNamesARun(steps: seq<Step>, p: Pid)
    requires Nameless(steps)
    ensures !NamesARun(Run(EMPTY, steps), p)
  {
    if steps != [] {
      var init, last := steps[..|steps| - 1], steps[|steps| - 1];
      NobodyNamesARun(init, p);
      RunsStay(Run(EMPTY, init), last);
      assert last == steps[|steps| - 1];
    }
  }

  lemma {:induction false} NamelessNeverBreak(steps: seq<Step>)
    requires Nameless(steps)
    ensures Breaks(EMPTY, steps) == []
  {
    if steps != [] {
      var init, last := steps[..|steps| - 1], steps[|steps| - 1];
      NamelessNeverBreak(init);
      if BreakOf(Run(EMPTY, init), last).Some? {
        BrokenOwnerHadARun(init, last);
        NobodyNamesARun(init, Run(EMPTY, init).procs[last.p].pc.judged);
      }
    }
  }

  /** If every process entered without a run id, nothing is ever broken and the lock is mutually exclusive. */
  lemma NamelessRunsExclude(steps: seq<Step>, p: Pid, q: Pid)
    requires forall i :: 0 <= i < |steps| && steps[i].Enter? ==> !Speaks(steps[i].run)
    ensures Breaks(EMPTY, steps) == []
    ensures Holds(Run(EMPTY, steps), p) && Holds(Run(EMPTY, steps), q) ==> p == q
  {
    NamelessNeverBreak(steps);
    HoldersAtMostOnePlusBreaks(steps);
  }
}
