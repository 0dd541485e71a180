// Exactly when the gate lock can come to be held twice: from which states a run with no further break
// ends with two holders.
module GateExactness {
  import opened Wrappers
  import opened GateLock
  import opened GateGuarantees

  /** A process inside the lock whose lock file a break took away. */
  ghost predicate HoldsBroken(w: World, p: Pid) {
    Holds(w, p) && w.procs[p].fd.Some? && w.procs[p].fd.value in w.hit
  }

  // ---------------------------------------------------------------- without a break nobody joins the broken

  /** A process enters the lock only with the file the path names, and that one is not broken. */
  lemma ActorHeldIt(w: World, p: Pid, env: Env)
    requires Inv(w) && p < |w.procs| && Acted(w, p, env).hit == w.hit && HoldsBroken(Acted(w, p, env), p)
    ensures HoldsBroken(w, p)
  {
    assert ProcInv(w, p);
    var pc := w.procs[p].pc;
    if pc.Recheck? {
      if NamesCurrent(w, w.procs[p].fd) { SameNumberSameFile(w, p); }
    } else if !pc.WriteStatus? {
      NotThroughTheDoor(w, p, env);
    }
  }

  lemma NotThroughTheDoor(w: World, p: Pid, env: Env)
    requires p < |w.procs| && !w.procs[p].pc.Recheck? && !w.procs[p].pc.WriteStatus?
    ensures !Holds(Acted(w, p, env), p) || Acted(w, p, env) == w
  {
  }

  lemma StepHitHolderIsOld(w: World, step: Step, p: Pid)
    requires Inv(w) && BreakOf(w, step) == None && HoldsBroken(Next(w, step), p)
    ensures HoldsBroken(w, p)
  {
    BreakIsOwnAndFresh(w, step);
    if step.Act? {
      if step.p < |w.procs| { ActedHitHolderIsOld(w, step.p, step.env, p); }
    } else {
      OthersKeepTheirs(w, step, p);
    }
  }

  lemma OthersKeepTheirs(w: World, step: Step, p: Pid)
    requires !step.Act? && HoldsBroken(Next(w, step), p)
    ensures HoldsBroken(w, p)
  {
  }

  lemma ActedHitHolderIsOld(w: World, q: Pid, env: Env, p: Pid)
    requires Inv(w) && q < |w.procs| && BreakOf(w, Act(q, env)) == None && HoldsBroken(Acted(w, q, env), p)
    requires Acted(w, q, env).hit == w.hit
    ensures HoldsBroken(w, p)
  {
    if q == p {
      ActorHeldIt(w, p, env);
    } else {
      ActKeepsTheirNumber(w, q, env);
      ActLeavesOthers(w, q, env, p);
      UnmovedHoldsStill(w, Acted(w, q, env), p);
    }
  }

  lemma UnmovedHoldsStill(w: World, v: World, p: Pid)
    requires HoldsBroken(v, p) && p < |w.procs| && v.procs[p] == w.procs[p] && v.hit == w.hit
    ensures HoldsBroken(w, p)
  {
  }

  lemma {:induction false} HitHoldersAreOld(w: World, steps: seq<Step>, p: Pid)
    requires Inv(w) && Breaks(w, steps) == [] && HoldsBroken(Run(w, steps), p)
    ensures HoldsBroken(w, p)
  {
    if steps != [] {
      var init := steps[..|steps| - 1];
      RunKeepsInv(w, init);
      assert Breaks(w, init) == [] && BreakOf(Run(w, init), steps[|steps| - 1]) == None;
      StepHitHolderIsOld(Run(w, init), steps[|steps| - 1], p);
      HitHoldersAreOld(w, init, p);
    }
  }

  // ---------------------------------------------------------------- a newcomer gets in

  /** A continuation without a break that leaves process `p` where it is. */
  ghost predicate Quietly(w: World, steps: seq<Step>, v: World, p: Pid) {
    && Run(w, steps) == v && Breaks(w, steps) == [] && Inv(v)
    && p < |w.procs| && p < |v.procs| && v.procs[p] == w.procs[p]
  }

  lemma QuietlyThen(w: World, steps: seq<Step>, v: World, step: Step, p: Pid) returns (more: seq<Step>)
    requires Quietly(w, steps, v, p) && BreakOf(v, step) == None
    requires p < |Next(v, step).procs| && Next(v, step).procs[p] == v.procs[p]
    ensures Quietly(w, more, Next(v, step), p)
  {
    more := steps + [step];
    assert more[..|more| - 1] == steps;
    StepKeepsInv(v, step);
  }

  ghost predicate PathFree(w: World) {
    w.path.Some? ==> w.path.value !in w.locks
  }

  /** Whoever keeps the lock of the file the path names dies; a holder of a broken file is not that one. */
  lemma FreeThePath(w: World, p: Pid) returns (steps: seq<Step>, v: World)
    requires Inv(w) && HoldsBroken(w, p)
    ensures Quietly(w, steps, v, p) && PathFree(v) && v.hit == w.hit
  {
    steps, v := [], w;
    assert Quietly(w, [], w, p);
    if w.path.Some? && w.path.value in w.locks {
      var keeper := w.locks[w.path.value];
      assert ProcInv(w, p) && keeper != p;
      v := Next(w, Die(keeper));
      steps := QuietlyThen(w, [], w, Die(keeper), p);
    }
  }

  /** The newcomer's four system calls: open, compare, lock, compare again. */
  lemma NewcomerOpens(v: World) returns (env: Env, o: World)
    requires Inv(v) && PathFree(v)
    ensures var n := |v.procs|;
      && o == Acted(Next(v, Enter("")), n, env) && BreakOf(Next(v, Enter("")), Act(n, env)) == None
      && n < |o.procs| && o.procs[n].pc == Check && o.procs[n].fd.Some? && o.procs[n].fd == o.path
      && o.path.value < |o.files|
      && PathFree(o) && o.hit == v.hit && o.procs[..n] == v.procs
  {
    env := Env(UnusedNumber(v.files), false, false);
    o := Acted(Next(v, Enter("")), |v.procs|, env);
  }

  lemma NewcomerLocks(o: World, n: Pid, env: Env) returns (h: World)
    requires n < |o.procs| && o.procs[n].pc == Check && o.procs[n].fd.Some? && o.procs[n].fd == o.path
    requires o.path.value < |o.files|
    requires PathFree(o) && !env.fails
    ensures h == Acted(Acted(Acted(o, n, env), n, env), n, env) && n < |h.procs| && Holds(h, n) && h.hit == o.hit
    ensures BreakOf(o, Act(n, env)) == None && BreakOf(Acted(o, n, env), Act(n, env)) == None
    ensures BreakOf(Acted(Acted(o, n, env), n, env), Act(n, env)) == None
    ensures forall p :: 0 <= p < |o.procs| && p != n ==>
      && p < |h.procs|
      && h.procs[p] == Acted(Acted(o, n, env), n, env).procs[p] == Acted(o, n, env).procs[p] == o.procs[p]
  {
    var tried := Go(o, n, TryLock);
    assert Acted(o, n, env) == tried;
    var locked := Go(tried.(locks := tried.locks[o.path.value := n]), n, Recheck);
    assert Acted(tried, n, env) == locked;
    h := Go(locked, n, WriteStatus);
    assert Acted(locked, n, env) == h;
  }

  lemma NewcomerGetsIn(w: World, start: seq<Step>, v: World, p: Pid) returns (steps: seq<Step>, h: World)
    requires Quietly(w, start, v, p) && PathFree(v)
    ensures Quietly(w, steps, h, p) && Holds(h, |v.procs|) && h.hit == v.hit
  {
    var n := |v.procs|;
    var env, o := NewcomerOpens(v);
    steps := QuietlyThen(w, start, v, Enter(""), p);
    assert o.procs[p] == o.procs[..n][p];
    steps := QuietlyThen(w, steps, Next(v, Enter("")), Act(n, env), p);
    steps, h := NewcomerPasses(w, steps, o, n, p);
  }

  lemma NewcomerPasses(w: World, start: seq<Step>, o: World, n: Pid, p: Pid) returns (steps: seq<Step>, h: World)
    requires Quietly(w, start, o, p) && PathFree(o) && p != n
    requires n < |o.procs| && o.procs[n].pc == Check && o.procs[n].fd.Some? && o.procs[n].fd == o.path
    requires o.path.value < |o.files|
    ensures Quietly(w, steps, h, p) && Holds(h, n) && h.hit == o.hit
  {
    var act := Env(0, false, false);
    h := NewcomerLocks(o, n, act);
    steps := QuietlyThen(w, start, o, Act(n, act), p);
    steps := QuietlyThen(w, steps, Acted(o, n, act), Act(n, act), p);
    steps := QuietlyThen(w, steps, Acted(Acted(o, n, act), n, act), Act(n, act), p);
  }

  /** From any state with a holder of a broken file, a second process gets in without any further break. */
  lemma SecondGetsIn(w: World, p: Pid) returns (steps: seq<Step>, n: Pid)
    requires Inv(w) && HoldsBroken(w, p)
    ensures Breaks(w, steps) == [] && p != n && Holds(Run(w, steps), p) && Holds(Run(w, steps), n)
  {
    var v, h: World;
    steps, v := FreeThePath(w, p);
    n := |v.procs|;
    steps, h := NewcomerGetsIn(w, steps, v, p);
  }

  // ---------------------------------------------------------------- the exact condition

  /** A run with no break that ends with two holders. */
  ghost predicate HeldTwice(w: World, steps: seq<Step>, p: Pid, q: Pid) {
    Breaks(w, steps) == [] && p != q && Holds(Run(w, steps), p) && Holds(Run(w, steps), q)
  }

  /** From any reachable state, some continuation with no further break ends with two holders if and only if some
      holder's file was broken under it; two holders at once are themselves such a state. */
  lemma HeldTwiceIff(w: World)
    requires Inv(w)
    ensures (exists steps, p, q :: HeldTwice(w, steps, p, q)) <==> exists p :: HoldsBroken(w, p)
    ensures (exists p, q :: p != q && Holds(w, p) && Holds(w, q)) ==> exists p :: HoldsBroken(w, p)
  {
    if p :| HoldsBroken(w, p) {
      var steps, n := SecondGetsIn(w, p);
      assert HeldTwice(w, steps, p, n);
    }
    forall steps, p, q | HeldTwice(w, steps, p, q) ensures exists r :: HoldsBroken(w, r) {
      RunKeepsInv(w, steps);
      OneIsBroken(Run(w, steps), p, q);
      if HoldsBroken(Run(w, steps), p) { HitHoldersAreOld(w, steps, p); } else { HitHoldersAreOld(w, steps, q); }
    }
    forall p, q | p != q && Holds(w, p) && Holds(w, q) ensures exists r :: HoldsBroken(w, r) {
      OneIsBroken(w, p, q);
    }
  }

  lemma OneIsBroken(w: World, p: Pid, q: Pid)
    requires Inv(w) && p != q && Holds(w, p) && Holds(w, q)
    ensures HoldsBroken(w, p) || HoldsBroken(w, q)
  {
    assert ProcInv(w, p) && ProcInv(w, q);
  }
}
