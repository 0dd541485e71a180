// The machine-wide gate lock: a lock file with flock, inode identity checks, a status sidecar
// naming the holder, and a breaker for stale locks serialized by a second, never unlinked lock.
//
// Any number of gate processes run `held_gate_lock`; every system call is one atomic step and
// a process may die between any two.
module GateLock {
  import opened Wrappers
  import Text

  type Pid = nat

  /** A file object. The number `fstat` shows is `files[f]`; the kernel may give a number out
      again once no name and no descriptor is left. */
  type File = nat

  /** The sidecar: who holds the lock, for which run. */
  datatype Record = Record(author: Pid, run: string)

  datatype Pc =
    | FirstOpen
    | Check                       // top of the loop: does the descriptor name the lock file?
    | Close
    | Reopen
    | TryLock
    | Recheck                     // flock taken: is it still the lock file?
    | Unlock
    | ReadStatus
    | Confirm
    | AwaitReap
    | Judge                       // from here to ReleaseReap under the reap lock
    | ReapConfirm(judged: Pid)
    | UnlinkLock(judged: Pid)
    | UnlinkStatus
    | ReleaseReap
    | WriteStatus                 // out of the loop: the lock is held
    | Inside
    | Gone

  datatype Proc = Proc(pc: Pc, fd: Option<File>, run: string)

  /** `broken` and `hit` are history: the files whose name a break removed, and those among them
      some process held at that moment. */
  datatype World = World(
    procs: seq<Proc>,
    files: seq<nat>,
    path: Option<File>,
    locks: map<File, Pid>,
    reap: Option<Pid>,
    status: Option<Record>,
    broken: set<File>,
    hit: set<File>)

  /** What the environment decides in a step: the inode number of a new file, whether the
      recorded owner looks dead or long finished, whether a call that may fail does. */
  datatype Env = Env(ino: nat, stale: bool, fails: bool)

  datatype Step =
    | Enter(run: string)
    | Act(p: Pid, env: Env)
    | Die(p: Pid)

  const EMPTY := World([], [], None, map[], None, None, {}, {})

  // ---------------------------------------------------------------- system calls

  predicate Live(w: World, f: File) {
    w.path == Some(f) || exists p :: 0 <= p < |w.procs| && w.procs[p].fd == Some(f)
  }

  /** The kernel never gives a live file's number to a new one. */
  predicate FreeNumber(w: World, ino: nat) {
    forall f :: 0 <= f < |w.files| && Live(w, f) ==> w.files[f] != ino
  }

  function UnusedNumber(files: seq<nat>): (ino: nat)
    ensures forall f :: 0 <= f < |files| ==> files[f] < ino
  {
    if files == [] then 0
    else
      var rest := UnusedNumber(files[1..]);
      assert forall f :: 0 < f < |files| ==> files[f] == files[1..][f - 1];
      if files[0] < rest then rest else files[0] + 1
  }

  function Go(w: World, p: Pid, pc: Pc): World
    requires p < |w.procs|
  {
    w.(procs := w.procs[p := w.procs[p].(pc := pc)])
  }

  /** `os.open(lock, O_CREAT | O_RDWR)` */
  function Opened(w: World, p: Pid, env: Env, pc: Pc): World
    requires p < |w.procs|
  {
    if w.path.Some? then w.(procs := w.procs[p := Proc(pc, w.path, w.procs[p].run)])
    else if FreeNumber(w, env.ino) then
      w.(procs :=
         w.procs[p := Proc(pc, Some(|w.files|), w.procs[p].run)], files := w.files + [env.ino], path := Some(|w.files|))
    else w
  }

  /** `_fd_names_current_lock`: equal inode numbers; a missing path is a no. */
  predicate NamesCurrent(w: World, fd: Option<File>) {
    && fd.Some? && w.path.Some? && fd.value < |w.files| && w.path.value < |w.files|
    && w.files[fd.value] == w.files[w.path.value]
  }

  function LocksWithout(locks: map<File, Pid>, p: Pid): map<File, Pid> {
    map f | f in locks && locks[f] != p :: locks[f]
  }

  /** `_terminal_owner_reason` on the sidecar: a record whose run id is empty or blank is never stale. */
  predicate LooksStale(status: Option<Record>, env: Env) {
    status.Some? && !Text.Blank(status.value.run) && env.stale
  }

  predicate Holds(w: World, p: Pid) {
    p < |w.procs| && (w.procs[p].pc.WriteStatus? || w.procs[p].pc.Inside?)
  }

  predicate HeldFile(w: World, f: File) {
    exists p :: 0 <= p < |w.procs| && Holds(w, p) && w.procs[p].fd == Some(f)
  }

  function TriedLock(w: World, p: Pid, env: Env): World
    requires p < |w.procs|
  {
    var fd := w.procs[p].fd;
    if fd.Some? && (fd.value !in w.locks || w.locks[fd.value] == p) && !env.fails
    then Go(w.(locks := w.locks[fd.value := p]), p, Recheck)
    else Go(w, p, ReadStatus)
  }

  function Unlinked(w: World, p: Pid, env: Env): World
    requires p < |w.procs|
  {
    if w.path.Some? && !env.fails then
      Go(w.(path := None, broken := w.broken + {w.path.value},
            hit := if HeldFile(w, w.path.value) then w.hit + {w.path.value} else w.hit), p, UnlinkStatus)
    else Go(w, p, UnlinkStatus)
  }

  /** Closing every descriptor drops every lock. */
  function Exited(w: World, p: Pid): World
    requires p < |w.procs|
  {
    w.(procs := w.procs[p := Proc(Gone, None, w.procs[p].run)],
       locks := LocksWithout(w.locks, p),
       reap := if w.reap == Some(p) then None else w.reap)
  }

  // ---------------------------------------------------------------- one step

  /** The next system call of `held_gate_lock` or `_break_stale_lock` in process `p`. */
  function Acted(w: World, p: Pid, env: Env): World
    requires p < |w.procs|
  {
    var fd := w.procs[p].fd;
    match w.procs[p].pc
    case FirstOpen => Opened(w, p, env, Check)
    case Check => Go(w, p, if NamesCurrent(w, fd) then TryLock else Close)
    case Close => w.(procs := w.procs[p := Proc(Reopen, None, w.procs[p].run)], locks := LocksWithout(w.locks, p))
    case Reopen => Opened(w, p, env, TryLock)
    case TryLock => TriedLock(w, p, env)
    case Recheck => Go(w, p, if NamesCurrent(w, fd) then WriteStatus else Unlock)
    case Unlock => Go(w.(locks := LocksWithout(w.locks, p)), p, ReadStatus)
    case ReadStatus => Go(w, p, if LooksStale(w.status, env) then Confirm else Check)
    case Confirm => Go(w, p, if NamesCurrent(w, fd) then AwaitReap else Check)
    case AwaitReap => if w.reap == None then Go(w.(reap := Some(p)), p, Judge) else w
    case Judge => Go(w, p, if LooksStale(w.status, env) then ReapConfirm(w.status.value.author) else ReleaseReap)
    case ReapConfirm(judged) => Go(w, p, if NamesCurrent(w, fd) then UnlinkLock(judged) else ReleaseReap)
    case UnlinkLock(_) => Unlinked(w, p, env)
    case UnlinkStatus => Go(w.(status := if env.fails then w.status else None), p, ReleaseReap)
    case ReleaseReap => Go(w.(reap := None), p, Check)
    case WriteStatus => Go(w.(status := if env.fails then w.status else Some(Record(p, w.procs[p].run))), p, Inside)
    case Inside => Exited(w, p)
    case Gone => w
  }

  function Next(w: World, step: Step): World {
    match step
    case Enter(run) => w.(procs := w.procs + [Proc(FirstOpen, None, run)])
    case Act(p, env) => if p < |w.procs| then Acted(w, p, env) else w
    case Die(p) => if p < |w.procs| then Exited(w, p) else w
  }

  function Run(w: World, steps: seq<Step>): World {
    if steps == [] then w else Next(Run(w, steps[..|steps| - 1]), steps[|steps| - 1])
  }

  // ---------------------------------------------------------------- the invariant

  predicate UnderReap(pc: Pc) {
    pc.Judge? || pc.ReapConfirm? || pc.UnlinkLock? || pc.UnlinkStatus? || pc.ReleaseReap?
  }

  predicate Owning(pc: Pc) {
    pc.Recheck? || pc.Unlock? || pc.WriteStatus? || pc.Inside?
  }

  /** The path names the newest file; every other file ever made was unlinked by a break. */
  ghost predicate FilesInv(w: World) {
    && (forall f :: f in w.broken <==> 0 <= f < |w.files| && w.path != Some(f))
    && (w.path.Some? ==> w.path.value < |w.files|)
    && w.hit <= w.broken
    && (forall p :: 0 <= p < |w.procs| && w.procs[p].fd.Some? ==> w.procs[p].fd.value < |w.files|)
  }

  /** What makes the comparison of inode numbers exact. */
  ghost predicate NumbersInv(w: World) {
    forall f, g ::
      0 <= f < |w.files| && 0 <= g < |w.files| && Live(w, f) && Live(w, g) && w.files[f] == w.files[g] ==> f == g
  }

  ghost predicate LocksInv(w: World) {
    forall f :: f in w.locks ==> w.locks[f] < |w.procs| && w.procs[w.locks[f]].fd == Some(f)
  }

  ghost predicate ProcInv(w: World, p: Pid)
    requires p < |w.procs|
  {
    var me := w.procs[p];
    && (Owning(me.pc) ==> me.fd.Some? && me.fd.value in w.locks && w.locks[me.fd.value] == p)
    && (Holds(w, p) ==> me.fd.Some? && (w.path == me.fd || me.fd.value in w.hit))
    && (me.pc.FirstOpen? || me.pc.Reopen? || me.pc.Gone? ==> me.fd == None)
    && (me.pc.UnlinkLock? ==> w.path.Some? && w.path == me.fd)
    && (UnderReap(me.pc) <==> w.reap == Some(p))
  }

  ghost predicate ProcsInv(w: World) {
    (forall p :: 0 <= p < |w.procs| ==> ProcInv(w, p)) && (w.reap.Some? ==> w.reap.value < |w.procs|)
  }

  ghost predicate Inv(w: World) {
    FilesInv(w) && NumbersInv(w) && LocksInv(w) && ProcsInv(w)
  }

  // ---------------------------------------------------------------- every step keeps it

  /** Equal numbers are the same file, because both files are live. */
  lemma SameNumberSameFile(w: World, p: Pid)
    requires FilesInv(w) && NumbersInv(w) && p < |w.procs| && NamesCurrent(w, w.procs[p].fd)
    ensures w.procs[p].fd == w.path
  {
    assert Live(w, w.procs[p].fd.value) && Live(w, w.path.value);
  }

  lemma NewNumberKeepsNumbersInv(w: World, p: Pid, env: Env, pc: Pc)
    requires FilesInv(w) && NumbersInv(w) && p < |w.procs|
    ensures NumbersInv(Opened(w, p, env, pc))
  {
    var v := Opened(w, p, env, pc);
    forall f, g | 0 <= f < |v.files| && 0 <= g < |v.files| && Live(v, f) && Live(v, g) && v.files[f] == v.files[g]
      ensures f == g
    {
      assert forall h :: 0 <= h < |w.files| && Live(v, h) ==> Live(w, h) by {
        forall h | 0 <= h < |w.files| && Live(v, h) ensures Live(w, h) {
          if v.path != Some(h) {
            var q :| 0 <= q < |v.procs| && v.procs[q].fd == Some(h);
            if q == p { assert w.path == Some(h) || w.procs[q].fd == Some(h); }
              else { assert w.procs[q] == v.procs[q]; }
          }
        }
      }
    }
  }

  /** Dropping names, descriptors and locks leaves fewer live files. */
  lemma FewerLiveKeepsNumbersInv(w: World, v: World)
    requires NumbersInv(w) && v.files == w.files
    requires v.path == w.path || v.path == None
    requires |v.procs| >= |w.procs|
    requires forall p ::
      0 <= p < |v.procs| ==> v.procs[p].fd == None || (p < |w.procs| && v.procs[p].fd == w.procs[p].fd)
    ensures NumbersInv(v)
  {
    forall f | 0 <= f < |v.files| && Live(v, f) ensures Live(w, f) {
      if v.path != Some(f) {
        var p :| 0 <= p < |v.procs| && v.procs[p].fd == Some(f);
        assert w.procs[p].fd == Some(f);
      }
    }
  }

  lemma OpenedKeepsInv(w: World, p: Pid, env: Env, pc: Pc)
    requires Inv(w) && p < |w.procs|
    requires w.procs[p].pc.FirstOpen? || w.procs[p].pc.Reopen?
    requires pc == Check || pc == TryLock
    ensures Inv(Opened(w, p, env, pc))
  {
    assert ProcInv(w, p);
    NewNumberKeepsNumbersInv(w, p, env, pc);
    var v := Opened(w, p, env, pc);
    forall q | 0 <= q < |v.procs| ensures ProcInv(v, q) {
      assert ProcInv(w, q);
    }
  }

  /** A step that only moves on to another statement. */
  lemma GoKeepsInv(w: World, p: Pid, pc: Pc)
    requires Inv(w) && p < |w.procs|
    requires Owning(pc) ==> Owning(w.procs[p].pc)
    requires pc.WriteStatus? || pc.Inside? ==> Holds(w, p) || w.path == w.procs[p].fd
    requires pc.UnlinkLock? ==> w.path.Some? && w.path == w.procs[p].fd
    requires pc.FirstOpen? || pc.Reopen? || pc.Gone? ==> w.procs[p].fd == None
    requires UnderReap(pc) <==> UnderReap(w.procs[p].pc)
    ensures Inv(Go(w, p, pc))
  {
    var v := Go(w, p, pc);
    FewerLiveKeepsNumbersInv(w, v);
    forall q | 0 <= q < |v.procs| ensures ProcInv(v, q) {
      assert ProcInv(w, q) && ProcInv(w, p);
    }
  }

  lemma LockKeepsInv(w: World, p: Pid, f: File)
    requires Inv(w) && p < |w.procs| && w.procs[p].pc.TryLock? && w.procs[p].fd == Some(f)
    requires f !in w.locks || w.locks[f] == p
    ensures Inv(Go(w.(locks := w.locks[f := p]), p, Recheck))
  {
    var v := Go(w.(locks := w.locks[f := p]), p, Recheck);
    FewerLiveKeepsNumbersInv(w, v);
    forall q | 0 <= q < |v.procs| ensures ProcInv(v, q) {
      assert ProcInv(w, q);
      if q != p {
        assert v.procs[q] == w.procs[q];
      }
    }
  }

  lemma TriedLockKeepsInv(w: World, p: Pid, env: Env)
    requires Inv(w) && p < |w.procs| && w.procs[p].pc.TryLock?
    ensures Inv(TriedLock(w, p, env))
  {
    var fd := w.procs[p].fd;
    if fd.Some? && (fd.value !in w.locks || w.locks[fd.value] == p) && !env.fails {
      LockKeepsInv(w, p, fd.value);
    } else {
      GoKeepsInv(w, p, ReadStatus);
    }
  }

  lemma UnlockKeepsInv(w: World, p: Pid)
    requires Inv(w) && p < |w.procs| && w.procs[p].pc.Unlock?
    ensures Inv(Go(w.(locks := LocksWithout(w.locks, p)), p, ReadStatus))
  {
    var v := Go(w.(locks := LocksWithout(w.locks, p)), p, ReadStatus);
    FewerLiveKeepsNumbersInv(w, v);
    forall q | 0 <= q < |v.procs| ensures ProcInv(v, q) {
      assert ProcInv(w, q);
    }
  }

  /** Only the reaper that confirmed it removes a name, and it removes the one it confirmed. */
  lemma UnlinkedKeepsInv(w: World, p: Pid, env: Env)
    requires Inv(w) && p < |w.procs| && w.procs[p].pc.UnlinkLock?
    ensures Inv(Unlinked(w, p, env))
  {
    assert ProcInv(w, p);
    var v := Unlinked(w, p, env);
    FewerLiveKeepsNumbersInv(w, v);
    forall q | 0 <= q < |v.procs| ensures ProcInv(v, q) {
      assert ProcInv(w, q);
    }
  }

  lemma StatusKeepsInv(w: World, status: Option<Record>)
    requires Inv(w)
    ensures Inv(w.(status := status))
  {
    var v := w.(status := status);
    FewerLiveKeepsNumbersInv(w, v);
    forall q | 0 <= q < |v.procs| ensures ProcInv(v, q) {
      assert ProcInv(w, q);
    }
  }

  /** Entering and leaving the section under the reap lock. */
  lemma ReapKeepsInv(w: World, p: Pid, reap: Option<Pid>, pc: Pc)
    requires Inv(w) && p < |w.procs|
    requires (w.reap == None && reap == Some(p) && w.procs[p].pc.AwaitReap? && pc == Judge)
          || (w.reap == Some(p) && reap == None && w.procs[p].pc.ReleaseReap? && pc == Check)
    ensures Inv(Go(w.(reap := reap), p, pc))
  {
    var v := Go(w.(reap := reap), p, pc);
    FewerLiveKeepsNumbersInv(w, v);
    forall q | 0 <= q < |v.procs| ensures ProcInv(v, q) {
      assert ProcInv(w, q) && ProcInv(w, p);
    }
  }

  lemma ClosedKeepsInv(w: World, p: Pid, pc: Pc, reap: Option<Pid>)
    requires Inv(w) && p < |w.procs|
    requires (w.procs[p].pc.Close? && pc == Reopen && reap == w.reap)
          || (pc == Gone && reap == if w.reap == Some(p) then None else w.reap)
    ensures Inv(w.(procs :=
                   w.procs[p := Proc(pc, None, w.procs[p].run)], locks := LocksWithout(w.locks, p), reap := reap))
  {
    var v := w.(procs := w.procs[p := Proc(pc, None, w.procs[p].run)], locks := LocksWithout(w.locks, p), reap := reap);
    FewerLiveKeepsNumbersInv(w, v);
    forall q | 0 <= q < |v.procs| ensures ProcInv(v, q) {
      assert ProcInv(w, q) && ProcInv(w, p);
    }
  }

  lemma EnterKeepsInv(w: World, run: string)
    requires Inv(w)
    ensures Inv(Next(w, Enter(run)))
  {
    var v := Next(w, Enter(run));
    FewerLiveKeepsNumbersInv(w, v);
    forall q | 0 <= q < |v.procs| ensures ProcInv(v, q) {
      if q < |w.procs| {
        assert ProcInv(w, q);
      }
    }
  }

  predicate Breaking(pc: Pc) {
    pc.AwaitReap? || UnderReap(pc)
  }

  /** A step of the queueing loop or of the holder. */
  lemma QueueStepKeepsInv(w: World, p: Pid, env: Env)
    requires Inv(w) && p < |w.procs| && !Breaking(w.procs[p].pc)
    ensures Inv(Acted(w, p, env))
  {
    assert ProcInv(w, p);
    var me := w.procs[p];
    if NamesCurrent(w, me.fd) { SameNumberSameFile(w, p); }
    match me.pc
    case FirstOpen => OpenedKeepsInv(w, p, env, Check);
    case Check => GoKeepsInv(w, p, if NamesCurrent(w, me.fd) then TryLock else Close);
    case Close => ClosedKeepsInv(w, p, Reopen, w.reap);
    case Reopen => OpenedKeepsInv(w, p, env, TryLock);
    case TryLock => TriedLockKeepsInv(w, p, env);
    case Recheck => GoKeepsInv(w, p, if NamesCurrent(w, me.fd) then WriteStatus else Unlock);
    case Unlock => UnlockKeepsInv(w, p);
    case ReadStatus => GoKeepsInv(w, p, if LooksStale(w.status, env) then Confirm else Check);
    case Confirm => GoKeepsInv(w, p, if NamesCurrent(w, me.fd) then AwaitReap else Check);
    case WriteStatus =>
      var status := if env.fails then w.status else Some(Record(p, me.run));
      StatusKeepsInv(w, status);
      GoKeepsInv(w.(status := status), p, Inside);
    case Inside => ClosedKeepsInv(w, p, Gone, if w.reap == Some(p) then None else w.reap);
    case Gone =>
  }

  /** A step of `_break_stale_lock`. */
  lemma BreakStepKeepsInv(w: World, p: Pid, env: Env)
    requires Inv(w) && p < |w.procs| && Breaking(w.procs[p].pc)
    ensures Inv(Acted(w, p, env))
  {
    assert ProcInv(w, p);
    var me := w.procs[p];
    if NamesCurrent(w, me.fd) { SameNumberSameFile(w, p); }
    match me.pc
    case AwaitReap => if w.reap == None { ReapKeepsInv(w, p, Some(p), Judge); }
    case Judge =>
      GoKeepsInv(w, p, if LooksStale(w.status, env) then ReapConfirm(w.status.value.author) else ReleaseReap);
    case ReapConfirm(judged) => GoKeepsInv(w, p, if NamesCurrent(w, me.fd) then UnlinkLock(judged) else ReleaseReap);
    case UnlinkLock(_) => UnlinkedKeepsInv(w, p, env);
    case UnlinkStatus =>
      var status := if env.fails then w.status else None;
      StatusKeepsInv(w, status);
      GoKeepsInv(w.(status := status), p, ReleaseReap);
    case ReleaseReap => ReapKeepsInv(w, p, None, Check);
  }

  lemma StepKeepsInv(w: World, step: Step)
    requires Inv(w)
    ensures Inv(Next(w, step))
  {
    match step
    case Enter(run) => EnterKeepsInv(w, run);
    case Act(p, env) =>
      if p < |w.procs| {
        if Breaking(w.procs[p].pc) { BreakStepKeepsInv(w, p, env); } else { QueueStepKeepsInv(w, p, env); }
      }
    case Die(p) => if p < |w.procs| { ClosedKeepsInv(w, p, Gone, if w.reap == Some(p) then None else w.reap); }
  }

  lemma {:induction false} RunKeepsInv(w: World, steps: seq<Step>)
    requires Inv(w)
    ensures Inv(Run(w, steps))
  {
    if steps != [] {
      RunKeepsInv(w, steps[..|steps| - 1]);
      StepKeepsInv(Run(w, steps[..|steps| - 1]), steps[|steps| - 1]);
    }
  }
}
