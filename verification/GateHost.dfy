// `held_gate_lock` and `_break_stale_lock` as they are written, on one machine's lock files, with
// every other gate process free to move before each system call.
module GateHost {
  import opened Wrappers
  import opened GateLock
  import opened GateGuarantees
  import opened GateRecords
  import Text

  /** A step of some process other than `me`. */
  predicate Foreign(step: Step, me: Pid) {
    match step
    case Enter(_) => true
    case Act(p, _) => p != me
    case Die(p) => p != me
  }

  /** What happens before a system call, and what that call meets. */
  datatype Turn = Turn(others: seq<Step>, env: Env)

  /** The steps of a history that are not system calls of `me`. */
  ghost function NotMine(steps: seq<Step>, me: Pid): seq<Step> {
    if steps == [] then []
    else
      var last := steps[|steps| - 1];
      NotMine(steps[..|steps| - 1], me) + if last.Act? && last.p == me then [] else [last]
  }

  /** The steps the others take in one turn. */
  ghost function ForeignOnes(steps: seq<Step>, me: Pid): seq<Step> {
    if steps == [] then []
    else
      ForeignOnes(steps[..|steps| - 1], me) + if Foreign(steps[|steps| - 1], me) then [steps[|steps| - 1]] else []
  }

  ghost function Promised(turns: seq<Turn>, me: Pid): seq<Step> {
    if turns == [] then [] else ForeignOnes(turns[0].others, me) + Promised(turns[1..], me)
  }

  /** The files process `me` itself unlinks over a run, in order. */
  ghost function BreaksBy(steps: seq<Step>, me: Pid): seq<File> {
    if steps == [] then []
    else
      var before, last := Run(EMPTY, steps[..|steps| - 1]), steps[|steps| - 1];
      BreaksBy(steps[..|steps| - 1], me)
        + if last.Act? && last.p == me && BreakOf(before, last).Some? then [BreakOf(before, last).value] else []
  }

  function OneOf(file: Option<File>): seq<File> {
    if file.Some? then [file.value] else []
  }

  lemma Regroup(a: seq<Step>, b: seq<Step>, c: seq<Step>)
    ensures (a + b) + c == a + (b + c)
  {
  }

  /** The four places that compare the descriptor with the path, and where each answer leads. */
  predicate Asks(pc: Pc, yes: Pc, no: Pc) {
    match pc
    case Check => yes == TryLock && no == Close
    case Recheck => yes == WriteStatus && no == Unlock
    case Confirm => yes == AwaitReap && no == Check
    case ReapConfirm(judged) => yes == UnlinkLock(judged) && no == ReleaseReap
    case _ => false
  }

  /** Where a judgement of the recorded owner leads, queued or as the reaper. */
  function AfterJudging(pc: Pc, judged: Option<Pid>): Pc {
    if pc == Judge then if judged.Some? then ReapConfirm(judged.value) else ReleaseReap
    else if judged.Some? then Confirm else Check
  }

  lemma JudgedNext(w: World, p: Pid, env: Env, judged: Option<Pid>)
    requires p < |w.procs| && (w.procs[p].pc == ReadStatus || w.procs[p].pc == Judge)
    requires judged == if LooksStale(w.status, env) then Some(w.status.value.author) else None
    ensures Acted(w, p, env) == Go(w, p, AfterJudging(w.procs[p].pc, judged))
  {
  }

  lemma AskedWhetherCurrent(w: World, p: Pid, env: Env, yes: Pc, no: Pc)
    requires p < |w.procs| && Asks(w.procs[p].pc, yes, no)
    ensures Acted(w, p, env) == Go(w, p, if NamesCurrent(w, w.procs[p].fd) then yes else no)
  {
  }

  lemma OpensFile(w: World, p: Pid, env: Env)
    requires p < |w.procs| && (w.procs[p].pc.FirstOpen? || w.procs[p].pc.Reopen?)
    ensures Acted(w, p, env) == Opened(w, p, env, if w.procs[p].pc.FirstOpen? then Check else TryLock)
  {
  }

  /** What a process knows when `held_gate_lock` lets it in. */
  lemma InsideKnows(trace: seq<Step>, me: Pid)
    requires Holds(Run(EMPTY, trace), me)
    ensures var w := Run(EMPTY, trace);
      && w.procs[me].fd.Some? && w.procs[me].fd.value in w.locks && w.locks[w.procs[me].fd.value] == me
      && (w.path == w.procs[me].fd || w.procs[me].fd.value in w.hit)
      && (Breaks(EMPTY, trace) == [] ==> forall q :: Holds(w, q) ==> q == me)
  {
    HoldersAreApart(trace, me, me);
    HoldersAtMostOnePlusBreaks(trace);
  }

  class Host {
    var procs: seq<Proc>
    var files: seq<nat>
    var path: Option<File>
    var locks: map<File, Pid>
    var reap: Option<Pid>
    var status: Option<Record>
    var broken: set<File>
    var hit: set<File>
    /** The turns still to come; nobody knows them in advance. */
    var turns: seq<Turn>
    ghost var trace: seq<Step>

    constructor (turns: seq<Turn>)
      ensures Valid() && trace == []
    {
      procs, files, path, locks, reap, status, broken, hit := [], [], None, map[], None, None, {}, {};
      this.turns := turns;
      trace := [];
    }

    function Snapshot(): World
      reads this
    {
      World(procs, files, path, locks, reap, status, broken, hit)
    }

    /** The fields are what the run so far makes of an empty machine. */
    ghost predicate Valid()
      reads this
    {
      Snapshot() == Run(EMPTY, trace)
    }

    ghost predicate At(me: Pid, pc: Pc)
      reads this
    {
      me < |procs| && procs[me].pc == pc
    }

    /** What the others have done so far, and what they are still going to do: no call of `me` adds to it or
        takes from it. */
    ghost function Heard(me: Pid): seq<Step>
      reads this
    {
      NotMine(trace, me) + Promised(turns, me)
    }

    ghost function BrokenBy(me: Pid): seq<File>
      reads this
    {
      BreaksBy(trace, me)
    }

    lemma Extend(step: Step, me: Pid)
      requires Valid()
      ensures Run(EMPTY, trace + [step]) == Next(Snapshot(), step)
      ensures NotMine(trace + [step], me) == NotMine(trace, me) + if step.Act? && step.p == me then [] else [step]
      ensures BreaksBy(trace + [step], me) ==
        BreaksBy(trace, me) + if step.Act? && step.p == me && BreakOf(Snapshot(), step).Some?
          then [BreakOf(Snapshot(), step).value] else []
    {
      assert (trace + [step])[..|trace|] == trace;
    }

    /** A system call of `me`, done on the fields, goes into the history. */
    ghost method Note(me: Pid, env: Env, before: World)
      requires before == Run(EMPTY, trace) && me < |before.procs|
      requires Snapshot() == Acted(before, me, env)
      modifies this`trace
      ensures Valid() && trace == old(trace) + [Act(me, env)]
      ensures Heard(me) == old(Heard(me))
      ensures BrokenBy(me) == old(BrokenBy(me)) + OneOf(BreakOf(before, Act(me, env)))
    {
      assert (trace + [Act(me, env)])[..|trace|] == trace;
      trace := trace + [Act(me, env)];
    }

    method Become(w: World)
      modifies this`procs, this`files, this`path, this`locks, this`reap, this`status, this`broken, this`hit
      ensures Snapshot() == w
    {
      procs, files, path, locks := w.procs, w.files, w.path, w.locks;
      reap, status, broken, hit := w.reap, w.status, w.broken, w.hit;
    }

    method Take(step: Step)
      requires Valid()
      modifies this`procs, this`files, this`path, this`locks, this`reap, this`status, this`broken, this`hit, this`trace
      ensures Valid() && trace == old(trace) + [step] && Snapshot() == Next(old(Snapshot()), step)
    {
      Extend(step, 0);
      Become(Next(Snapshot(), step));
      trace := trace + [step];
    }

    /** A step of another process. */
    method Interfere(me: Pid, step: Step)
      requires Valid() && me < |procs|
      modifies this`procs, this`files, this`path, this`locks, this`reap, this`status, this`broken, this`hit, this`trace
      ensures Valid() && old(trace) <= trace && me < |procs| && procs[me] == old(procs[me])
      ensures NotMine(trace, me) == old(NotMine(trace, me)) + if Foreign(step, me) then [step] else []
      ensures BrokenBy(me) == old(BrokenBy(me))
    {
      if Foreign(step, me) {
        if step.Act? && step.p < |procs| { ActLeavesOthers(Snapshot(), step.p, step.env, me); }
        Extend(step, me);
        Take(step);
      }
    }

    /** One turn of the others; `me` stays where it is. */
    method LetMove(me: Pid, others: seq<Step>)
      requires Valid() && me < |procs|
      modifies this`procs, this`files, this`path, this`locks, this`reap, this`status, this`broken, this`hit, this`trace
      ensures Valid() && old(trace) <= trace && me < |procs| && procs[me] == old(procs[me])
      ensures NotMine(trace, me) == old(NotMine(trace, me)) + ForeignOnes(others, me)
      ensures BrokenBy(me) == old(BrokenBy(me))
    {
      ghost var heard := NotMine(trace, me);
      var i := 0;
      while i < |others|
        invariant 0 <= i <= |others|
        invariant Valid() && old(trace) <= trace && me < |procs| && procs[me] == old(procs[me])
        invariant NotMine(trace, me) == heard + ForeignOnes(others[..i], me)
        invariant BrokenBy(me) == old(BrokenBy(me))
      {
        Interfere(me, others[i]);
        assert others[..i + 1][..i] == others[..i];
        Regroup(heard, ForeignOnes(others[..i], me), if Foreign(others[i], me) then [others[i]] else []);
        i := i + 1;
      }
      assert others[..i] == others;
    }

    /** The next turn, if there is one. */
    method Await(me: Pid) returns (env: Env)
      requires Valid() && me < |procs|
      modifies this
      ensures Valid() && old(trace) <= trace && me < |procs| && procs[me] == old(procs[me])
      ensures Heard(me) == old(Heard(me)) && BrokenBy(me) == old(BrokenBy(me))
      ensures |turns| == if old(|turns|) == 0 then 0 else old(|turns|) - 1
      ensures old(turns) == [] ==> status == old(status)
    {
      if turns == [] { return Env(0, false, false); }
      var turn := turns[0];
      env := turn.env;
      Regroup(NotMine(trace, me), ForeignOnes(turn.others, me), Promised(turns[1..], me));
      turns := turns[1..];
      LetMove(me, turn.others);
    }

    // ---------------------------------------------------------------- system calls

    method Begin(run: string) returns (me: Pid)
      requires Valid()
      modifies this`procs, this`trace
      ensures Valid() && trace == old(trace) + [Enter(run)]
      ensures me == old(|procs|) && procs == old(procs) + [Proc(FirstOpen, None, run)]
      ensures NotMine(trace, me) == old(NotMine(trace, |procs|)) + [Enter(run)]
    {
      me := |procs|;
      Extend(Enter(run), me);
      procs := procs + [Proc(FirstOpen, None, run)];
      trace := trace + [Enter(run)];
    }

    /** `os.open(lock, O_CREAT | O_RDWR)`: the existing file, or a new one under a free number. */
    method Open(me: Pid)
      requires Valid() && (At(me, FirstOpen) || At(me, Reopen))
      modifies this
      ensures Valid() && old(trace) <= trace && |turns| <= old(|turns|)
      ensures Heard(me) == old(Heard(me)) && BrokenBy(me) == old(BrokenBy(me))
      ensures At(me, if old(procs[me].pc) == FirstOpen then Check else TryLock)
    {
      var env := Await(me);
      var used := env.(ino := if FreeNumber(Snapshot(), env.ino) then env.ino else UnusedNumber(files));
      ghost var before := Snapshot();
      OpensFile(Snapshot(), me, used);
      Attach(me, used, if procs[me].pc == FirstOpen then Check else TryLock);
      Note(me, used, before);
    }

    method Attach(me: Pid, env: Env, pc: Pc)
      requires me < |procs| && FreeNumber(Snapshot(), env.ino)
      modifies this`path, this`files, this`procs
      ensures Snapshot() == Opened(old(Snapshot()), me, env, pc)
      ensures At(me, pc)
    {
      if path == None {
        path := Some(|files|);
        files := files + [env.ino];
      }
      procs := procs[me := procs[me].(pc := pc, fd := path)];
    }

    method CloseDescriptor(me: Pid)
      requires Valid() && At(me, Close)
      modifies this
      ensures Valid() && old(trace) <= trace && |turns| <= old(|turns|)
      ensures Heard(me) == old(Heard(me)) && BrokenBy(me) == old(BrokenBy(me))
      ensures At(me, Reopen)
    {
      var env := Await(me);
      ghost var before := Snapshot();
      locks := LocksWithout(locks, me);
      procs := procs[me := procs[me].(pc := Reopen, fd := None)];
      Note(me, env, before);
    }

    /** `_fd_names_current_lock`, at the four places that ask. */
    method NamesCurrentLock(me: Pid, yes: Pc, no: Pc) returns (same: bool)
      requires Valid() && me < |procs|
      requires Asks(procs[me].pc, yes, no)
      modifies this
      ensures Valid() && old(trace) <= trace && |turns| <= old(|turns|)
      ensures Heard(me) == old(Heard(me)) && BrokenBy(me) == old(BrokenBy(me))
      ensures old(|turns|) > 0 ==> |turns| < old(|turns|)
      ensures At(me, if same then yes else no) && procs[me].fd == old(procs[me].fd)
    {
      var env := Await(me);
      ghost var before := Snapshot();
      AskedWhetherCurrent(before, me, env, yes, no);
      same := Compare(me, yes, no);
      Note(me, env, before);
    }

    /** `os.fstat` and `os.stat` side by side. */
    method Compare(me: Pid, yes: Pc, no: Pc) returns (same: bool)
      requires me < |procs|
      modifies this`procs
      ensures same == NamesCurrent(old(Snapshot()), old(procs[me].fd))
      ensures Snapshot() == Go(old(Snapshot()), me, if same then yes else no)
    {
      same := NamesCurrent(Snapshot(), procs[me].fd);
      procs := procs[me := procs[me].(pc := if same then yes else no)];
    }

    /** `fcntl.flock(fd, LOCK_EX | LOCK_NB)` */
    method TryFlock(me: Pid) returns (locked: bool)
      requires Valid() && At(me, TryLock)
      modifies this
      ensures Valid() && old(trace) <= trace && |turns| <= old(|turns|)
      ensures Heard(me) == old(Heard(me)) && BrokenBy(me) == old(BrokenBy(me))
      ensures At(me, if locked then Recheck else ReadStatus)
    {
      var env := Await(me);
      ghost var before := Snapshot();
      var fd := procs[me].fd;
      locked := fd.Some? && (fd.value !in locks || locks[fd.value] == me) && !env.fails;
      if locked { locks := locks[fd.value := me]; }
      procs := procs[me := procs[me].(pc := if locked then Recheck else ReadStatus)];
      Note(me, env, before);
    }

    method Funlock(me: Pid)
      requires Valid() && At(me, Unlock)
      modifies this
      ensures Valid() && old(trace) <= trace && |turns| <= old(|turns|)
      ensures Heard(me) == old(Heard(me)) && BrokenBy(me) == old(BrokenBy(me))
      ensures At(me, ReadStatus)
    {
      var env := Await(me);
      ghost var before := Snapshot();
      locks := LocksWithout(locks, me);
      procs := procs[me := procs[me].(pc := ReadStatus)];
      Note(me, env, before);
    }

    /** Read the sidecar and judge its owner, queued or as the reaper. */
    method JudgeOwner(me: Pid) returns (judged: Option<Pid>)
      requires Valid() && (At(me, ReadStatus) || At(me, Judge))
      modifies this
      ensures Valid() && old(trace) <= trace && |turns| <= old(|turns|)
      ensures Heard(me) == old(Heard(me)) && BrokenBy(me) == old(BrokenBy(me))
      ensures old(procs[me].pc) == ReadStatus ==> At(me, if judged.Some? then Confirm else Check)
      ensures old(procs[me].pc) == Judge ==> At(me, if judged.Some? then ReapConfirm(judged.value) else ReleaseReap)
      ensures procs[me].fd == old(procs[me].fd)
      ensures judged.Some? ==> status.Some? && status.value.author == judged.value && Text.Speaks(status.value.run)
    {
      var env := Await(me);
      ghost var before := Snapshot();
      if status.Some? { Text.BlankIsSilent(status.value.run); }
      judged := if LooksStale(status, env) then Some(status.value.author) else None;
      var pc := AfterJudging(procs[me].pc, judged);
      JudgedNext(before, me, env, judged);
      procs := procs[me := procs[me].(pc := pc)];
      Note(me, env, before);
    }

    method WriteLockStatus(me: Pid)
      requires Valid() && At(me, WriteStatus)
      modifies this
      ensures Valid() && old(trace) <= trace && |turns| <= old(|turns|)
      ensures Heard(me) == old(Heard(me)) && BrokenBy(me) == old(BrokenBy(me))
      ensures At(me, Inside)
    {
      var env := Await(me);
      ghost var before := Snapshot();
      if !env.fails { status := Some(Record(me, procs[me].run)); }
      procs := procs[me := procs[me].(pc := Inside)];
      Note(me, env, before);
    }

    // ---------------------------------------------------------------- _break_stale_lock

    /** `fcntl.flock(reap_fd, LOCK_EX)`: waits; false when the turns run out first. */
    method TakeReapLock(me: Pid) returns (taken: bool)
      requires Valid() && At(me, AwaitReap)
      modifies this
      ensures Valid() && old(trace) <= trace && |turns| <= old(|turns|)
      ensures Heard(me) == old(Heard(me)) && BrokenBy(me) == old(BrokenBy(me))
      ensures At(me, if taken then Judge else AwaitReap) && procs[me].fd == old(procs[me].fd)
    {
      taken := false;
      while !taken && turns != []
        invariant Valid() && old(trace) <= trace && |turns| <= old(|turns|)
        invariant Heard(me) == old(Heard(me)) && BrokenBy(me) == old(BrokenBy(me))
        invariant At(me, if taken then Judge else AwaitReap) && procs[me].fd == old(procs[me].fd)
        decreases |turns|
      {
        taken := TryReapLock(me);
      }
    }

    /** One look at the reap lock. */
    method TryReapLock(me: Pid) returns (taken: bool)
      requires Valid() && At(me, AwaitReap) && turns != []
      modifies this
      ensures Valid() && old(trace) <= trace && |turns| < old(|turns|)
      ensures Heard(me) == old(Heard(me)) && BrokenBy(me) == old(BrokenBy(me))
      ensures At(me, if taken then Judge else AwaitReap) && procs[me].fd == old(procs[me].fd)
    {
      var env := Await(me);
      taken := reap == None;
      if taken {
        ghost var before := Snapshot();
        reap := Some(me);
        procs := procs[me := procs[me].(pc := Judge)];
        Note(me, env, before);
      }
    }

    /** `lock.unlink()`; it may fail silently, and then breaks nothing. */
    method UnlinkLockFile(me: Pid, judged: Pid) returns (removed: Option<File>)
      requires Valid() && At(me, UnlinkLock(judged))
      modifies this
      ensures Valid() && old(trace) <= trace && |turns| <= old(|turns|)
      ensures Heard(me) == old(Heard(me))
      ensures BrokenBy(me) == old(BrokenBy(me)) + OneOf(removed) && (removed.Some? ==> removed == old(procs[me].fd))
      ensures At(me, UnlinkStatus)
      ensures removed.Some? ==> NamesARun(Snapshot(), judged)
    {
      var env := Await(me);
      ghost var before := Snapshot();
      OwnFile(me, env);
      RunKeepsRecords(trace);
      removed := if env.fails then None else path;
      Remove(me, env.fails);
      Note(me, env, before);
    }

    /** At the unlink the path names the file this reaper's own descriptor names. */
    lemma OwnFile(me: Pid, env: Env)
      requires Valid() && me < |procs| && procs[me].pc.UnlinkLock?
      ensures BreakOf(Snapshot(), Act(me, env)) == if env.fails then None else path
      ensures path == procs[me].fd
    {
      RunKeepsInv(EMPTY, trace);
      assert ProcInv(Snapshot(), me);
    }

    method Remove(me: Pid, fails: bool)
      requires me < |procs|
      modifies this`path, this`broken, this`hit, this`procs
      ensures Snapshot() == Unlinked(old(Snapshot()), me, Env(0, false, fails))
    {
      if path.Some? && !fails {
        if HeldFile(Snapshot(), path.value) { hit := hit + {path.value}; }
        broken := broken + {path.value};
        path := None;
      }
      procs := procs[me := procs[me].(pc := UnlinkStatus)];
    }

    /** `status.unlink()`; it may fail silently. */
    method UnlinkStatusFile(me: Pid)
      requires Valid() && At(me, UnlinkStatus)
      modifies this
      ensures Valid() && old(trace) <= trace && |turns| <= old(|turns|)
      ensures Heard(me) == old(Heard(me)) && BrokenBy(me) == old(BrokenBy(me))
      ensures At(me, ReleaseReap)
    {
      var env := Await(me);
      ghost var before := Snapshot();
      if !env.fails { status := None; }
      procs := procs[me := procs[me].(pc := ReleaseReap)];
      Note(me, env, before);
    }

    method ReleaseReapLock(me: Pid)
      requires Valid() && At(me, ReleaseReap)
      modifies this
      ensures Valid() && old(trace) <= trace && |turns| <= old(|turns|)
      ensures Heard(me) == old(Heard(me)) && BrokenBy(me) == old(BrokenBy(me))
      ensures At(me, Check)
    {
      var env := Await(me);
      ghost var before := Snapshot();
      reap := None;
      procs := procs[me := procs[me].(pc := Check)];
      Note(me, env, before);
    }

    /** Back at the top of the loop, or still queued for the reap lock when the turns run out. This reaper
        breaks at most one file, the one its descriptor names, and `removed` says whether it did. */
    method BreakStaleLock(me: Pid) returns (back: bool, removed: Option<File>)
      requires Valid() && At(me, AwaitReap)
      modifies this
      ensures Valid() && old(trace) <= trace && |turns| <= old(|turns|)
      ensures Heard(me) == old(Heard(me))
      ensures BrokenBy(me) == old(BrokenBy(me)) + OneOf(removed)
      ensures (removed.Some? ==> back && removed == old(procs[me].fd))
      ensures At(me, if back then Check else AwaitReap)
    {
      removed := None;
      back := TakeReapLock(me);
      if back { removed := Reap(me); }
    }

    /** The section under the reap lock, and its end. */
    method Reap(me: Pid) returns (removed: Option<File>)
      requires Valid() && At(me, Judge)
      modifies this
      ensures Valid() && old(trace) <= trace && |turns| <= old(|turns|)
      ensures Heard(me) == old(Heard(me))
      ensures BrokenBy(me) == old(BrokenBy(me)) + OneOf(removed) && (removed.Some? ==> removed == old(procs[me].fd))
      ensures At(me, Check)
    {
      removed := UnlinkIfStale(me);
      ReleaseReapLock(me);
    }

    /** What happens under the reap lock: judge the owner again, check the descriptor again, unlink. An owner that no
        longer looks stale breaks nothing. */
    method UnlinkIfStale(me: Pid) returns (removed: Option<File>)
      requires Valid() && At(me, Judge)
      modifies this
      ensures Valid() && old(trace) <= trace && |turns| <= old(|turns|)
      ensures Heard(me) == old(Heard(me))
      ensures BrokenBy(me) == old(BrokenBy(me)) + OneOf(removed) && (removed.Some? ==> removed == old(procs[me].fd))
      ensures At(me, ReleaseReap)
    {
      removed := None;
      var judged := JudgeOwner(me);
      if judged.Some? {
        removed := UnlinkIfCurrent(me, judged.value);
      }
    }

    method UnlinkIfCurrent(me: Pid, judged: Pid) returns (removed: Option<File>)
      requires Valid() && At(me, ReapConfirm(judged))
      modifies this
      ensures Valid() && old(trace) <= trace && |turns| <= old(|turns|)
      ensures Heard(me) == old(Heard(me))
      ensures BrokenBy(me) == old(BrokenBy(me)) + OneOf(removed) && (removed.Some? ==> removed == old(procs[me].fd))
      ensures At(me, ReleaseReap)
    {
      removed := None;
      var same := NamesCurrentLock(me, UnlinkLock(judged), ReleaseReap);
      if same { removed := UnlinkBoth(me, judged); }
    }

    method UnlinkBoth(me: Pid, judged: Pid) returns (removed: Option<File>)
      requires Valid() && At(me, UnlinkLock(judged))
      modifies this
      ensures Valid() && old(trace) <= trace && |turns| <= old(|turns|)
      ensures Heard(me) == old(Heard(me))
      ensures BrokenBy(me) == old(BrokenBy(me)) + OneOf(removed) && (removed.Some? ==> removed == old(procs[me].fd))
      ensures At(me, ReleaseReap)
    {
      removed := UnlinkLockFile(me, judged);
      UnlinkStatusFile(me);
    }

    // ---------------------------------------------------------------- held_gate_lock

    /** The descriptor after the check at the top of the loop: reopened if the file was replaced. */
    method Refresh(me: Pid)
      requires Valid() && At(me, Check)
      modifies this
      ensures Valid() && old(trace) <= trace && |turns| <= old(|turns|)
      ensures Heard(me) == old(Heard(me)) && BrokenBy(me) == old(BrokenBy(me))
      ensures old(|turns|) > 0 ==> |turns| < old(|turns|)
      ensures At(me, TryLock)
    {
      var same := NamesCurrentLock(me, TryLock, Close);
      if !same {
        CloseDescriptor(me);
        Open(me);
      }
    }

    /** One turn of the loop up to the `break`: take the lock, and keep it only if it is still the lock
        file. */
    method Attempt(me: Pid) returns (held: bool)
      requires Valid() && At(me, Check)
      modifies this
      ensures Valid() && old(trace) <= trace && |turns| <= old(|turns|)
      ensures Heard(me) == old(Heard(me)) && BrokenBy(me) == old(BrokenBy(me))
      ensures old(|turns|) > 0 ==> |turns| < old(|turns|)
      ensures At(me, if held then WriteStatus else ReadStatus)
    {
      Refresh(me);
      held := TryFlock(me);
      if held { held := KeepIfCurrent(me); }
    }

    /** The lock is taken: keep it if the file is still the lock file, else let go. */
    method KeepIfCurrent(me: Pid) returns (held: bool)
      requires Valid() && At(me, Recheck)
      modifies this
      ensures Valid() && old(trace) <= trace && |turns| <= old(|turns|)
      ensures Heard(me) == old(Heard(me)) && BrokenBy(me) == old(BrokenBy(me))
      ensures At(me, if held then WriteStatus else ReadStatus)
    {
      held := NamesCurrentLock(me, WriteStatus, Unlock);
      if !held { Funlock(me); }
    }

    /** The rest of a turn of the loop, the lock not taken: break it if its owner looks stale. */
    method Queue(me: Pid) returns (back: bool)
      requires Valid() && At(me, ReadStatus)
      modifies this
      ensures Valid() && old(trace) <= trace && |turns| <= old(|turns|)
      ensures Heard(me) == old(Heard(me))
      ensures At(me, if back then Check else AwaitReap)
    {
      back := true;
      var judged := JudgeOwner(me);
      if judged.Some? {
        var same := NamesCurrentLock(me, AwaitReap, Check);
        if same {
          var removed: Option<File>;
          back, removed := BreakStaleLock(me);
        }
      }
    }

    /** What a process may count on inside: the exclusive lock of a file that is the lock file or was broken
        under it, and no other holder if nothing was ever broken. */
    ghost predicate Secured(me: Pid)
      reads this
    {
      && me < |procs| && procs[me].fd.Some?
      && procs[me].fd.value in locks && locks[procs[me].fd.value] == me
      && (path == procs[me].fd || procs[me].fd.value in hit)
      && (Breaks(EMPTY, trace) == [] ==> forall q :: Holds(Snapshot(), q) ==> q == me)
      && (Nameless(trace) ==> Breaks(EMPTY, trace) == [])
    }

    lemma InsideIsSecured(me: Pid)
      requires Valid() && At(me, Inside)
      ensures Secured(me)
    {
      InsideKnows(trace, me);
      if Nameless(trace) { NamelessNeverBreak(trace); }
    }

    /** Up to the `yield`: returns inside the lock, or still queued when the turns run out. All it
        and the others did is a run of the machine, so whoever gets in owns the exclusive lock of a
        file that is the lock file or was broken under it, and is alone if nothing was broken. */
    method HeldGateLock(run: string) returns (me: Pid, held: bool)
      requires Valid()
      modifies this
      ensures Valid() && old(trace) <= trace && me == old(|procs|)
      ensures Heard(me) == old(NotMine(trace, |procs|)) + [Enter(run)] + old(Promised(turns, |procs|))
      ensures me < |procs| && (held <==> Holds(Snapshot(), me))
      ensures held ==> Secured(me)
    {
      me := Join(run);
      held := Acquire(me);
      if held { InsideIsSecured(me); }
    }

    /** The process starts and opens the lock file. */
    method Join(run: string) returns (me: Pid)
      requires Valid()
      modifies this
      ensures Valid() && old(trace) <= trace && me == old(|procs|) && At(me, Check)
      ensures Heard(me) == old(NotMine(trace, |procs|)) + [Enter(run)] + old(Promised(turns, |procs|))
    {
      me := Begin(run);
      Open(me);
    }

    /** One turn of the loop: in, or back at its top, or still queued for the reap lock. */
    method TakeTurn(me: Pid) returns (held: bool, back: bool)
      requires Valid() && At(me, Check) && turns != []
      modifies this
      ensures Valid() && old(trace) <= trace && |turns| < old(|turns|)
      ensures Heard(me) == old(Heard(me))
      ensures At(me, if held then Inside else if back then Check else AwaitReap)
    {
      back := false;
      held := Attempt(me);
      if held {
        WriteLockStatus(me);
      } else {
        back := Queue(me);
      }
    }

    /** The queueing loop. */
    method Acquire(me: Pid) returns (held: bool)
      requires Valid() && At(me, Check)
      modifies this
      ensures Valid() && old(trace) <= trace && me < |procs|
      ensures Heard(me) == old(Heard(me))
      ensures if held then At(me, Inside) else At(me, Check) || At(me, AwaitReap)
      ensures held <==> Holds(Snapshot(), me)
    {
      while turns != []
        invariant Valid() && old(trace) <= trace && At(me, Check)
        invariant Heard(me) == old(Heard(me))
        decreases |turns|
      {
        var back: bool;
        held, back := TakeTurn(me);
        if held || !back { return; }
      }
      return false;
    }

    /** The `finally` after the block: the lock is dropped with the descriptor, and this touches no status; it
        stays as the others leave it. */
    method Release(me: Pid)
      requires Valid() && At(me, Inside)
      modifies this
      ensures Valid() && old(trace) <= trace
      ensures Heard(me) == old(Heard(me)) && BrokenBy(me) == old(BrokenBy(me))
      ensures At(me, Gone) && forall f :: f in locks ==> locks[f] != me
      ensures old(turns) == [] ==> status == old(status)
    {
      var env := Await(me);
      ghost var before := Snapshot();
      LeaveAll(me);
      Note(me, env, before);
    }

    method LeaveAll(me: Pid)
      requires me < |procs|
      modifies this`locks, this`reap, this`procs
      ensures Snapshot() == Exited(old(Snapshot()), me)
    {
      locks := LocksWithout(locks, me);
      reap := if reap == Some(me) then None else reap;
      procs := procs[me := procs[me].(pc := Gone, fd := None)];
    }
  }
}
