// When sweeping the newest row of a SQLite table is harmless, and when it is not.
//
// max+1 hands the swept seqs out again. That matters to whoever still holds one of them: a merge
// that read a swept row may find a stranger in its place.
module AlbumSweeps {
  import opened Wrappers
  import opened EventTable
  import opened AlbumMerge
  import opened AlbumGuarantees

  // ---------------------------------------------------------------- inserting up to a seq

  ghost predicate OnlyInserts(steps: seq<Step>) {
    forall i :: 0 <= i < |steps| ==> steps[i].Arrive? || steps[i].Mint?
  }

  lemma {:induction false} InsertsAreSafe(w: World, steps: seq<Step>)
    requires OnlyInserts(steps)
    ensures SafeRun(w, steps)
    decreases |steps|
  {
    if steps != [] {
      InsertsAreSafe(Next(w, steps[0]), steps[1..]);
    }
  }

  lemma {:induction false} RunThen(w: World, steps: seq<Step>, last: Step)
    ensures Run(w, steps + [last]) == Next(Run(w, steps), last)
    ensures SafeRun(w, steps) && SafeStep(Run(w, steps), last) ==> SafeRun(w, steps + [last])
    decreases |steps|
  {
    if steps == [] {
      assert [last][1..] == [];
      assert [] + [last] == [last];
    } else {
      RunThen(Next(w, steps[0]), steps[1..], last);
      assert (steps + [last])[1..] == steps[1..] + [last];
    }
  }

  /** `u` is `v` with more rows behind, the last of them a plain event of `item` at seq `at`. */
  ghost predicate GrownTo(v: World, u: World, item: Item, at: nat) {
    && Ordered(u) && u.alloc == v.alloc && u.high == at && u.now == v.now
    && v.workers <= u.workers
    && |v.rows| < |u.rows| && u.rows[..|v.rows|] == v.rows
    && u.rows[|u.rows| - 1] == FreshRow(item, at, u.rows[|u.rows| - 1].id, v.now)
  }

  lemma OneMoreEvent(v: World, item: Item)
    requires Ordered(v) && item.album == None
    ensures var u := Next(Next(v, Arrive(item)), Mint(|v.workers|));
            GrownTo(v, u, item, u.high) && u.high == NextSeq(v.alloc, v.rows, v.high)
  {
    OrderedStep(v, Arrive(item));
    OrderedStep(Next(v, Arrive(item)), Mint(|v.workers|));
  }

  lemma GrownTwice(v: World, m: World, u: World, item: Item, mid: nat, at: nat)
    requires GrownTo(v, m, item, mid) && GrownTo(m, u, item, at)
    ensures GrownTo(v, u, item, at)
  {
    assert u.rows[..|v.rows|] == u.rows[..|m.rows|][..|v.rows|];
  }

  /** Plain events fill a max+1 table up to any seq above its last. */
  lemma {:induction false} InsertUpTo(v: World, item: Item, at: nat) returns (steps: seq<Step>)
    requires Ordered(v) && v.alloc.MaxPlusOne? && item.album == None && v.high < at
    ensures OnlyInserts(steps) && GrownTo(v, Run(v, steps), item, at)
    decreases at - v.high
  {
    OneMoreEvent(v, item);
    var a, b := Arrive(item), Mint(|v.workers|);
    var m := Next(Next(v, a), b);
    var rest: seq<Step> := [];
    if m.high < at {
      rest := InsertUpTo(m, item, at);
      GrownTwice(v, m, Run(m, rest), item, m.high, at);
    }
    steps := [a, b] + rest;
    RunPast(v, a, b, rest);
  }

  lemma RunPast(v: World, a: Step, b: Step, rest: seq<Step>)
    ensures Run(v, [a, b] + rest) == Run(Next(Next(v, a), b), rest)
  {
    var steps := [a, b] + rest;
    assert steps[1..] == [b] + rest && steps[1..][1..] == rest;
    assert Run(v, steps) == Run(Next(v, a), [b] + rest);
    assert Run(Next(v, a), [b] + rest) == Run(Next(Next(v, a), b), rest);
  }

  // ---------------------------------------------------------------- the exact condition

  /** In this run an event that was out of the queue is queued again. */
  ghost predicate Requeues(v: World, steps: seq<Step>, id: EventId) {
    SafeRun(v, steps) && WasMinted(v, id) && !IsQueued(v.rows, id) && IsQueued(Run(v, steps).rows, id)
  }

  /** A stranger with the content a stalled merge has read takes the seq it has read, and the merge lands. */
  lemma StaleReadingRequeues(w: World, k: nat) returns (steps: seq<Step>)
    requires Inv(w) && w.alloc.MaxPlusOne? && k < |w.workers| && w.workers[k].Holding?
    requires w.workers[k].read.seqNo > Swept(w).high
    ensures Requeues(Swept(w), steps, w.workers[k].read.id)
  {
    var read, v := w.workers[k].read, Swept(w);
    assert ReadOk(read, w.rows, w.high, w.minted, w.now);
    OrderedSweep(w);
    forall s | s in v.rows ensures s.id != read.id {
      RewriteOrigin(w.rows, SweepOld(w.now), s);
      var o :| o in w.rows && SweepOld(w.now)(o) == Some(s);
      LastIsMax(v.rows, s);
    }
    var twin := Item("", "", read.body.value, read.attachments, None, None, None);
    var inserts := InsertUpTo(v, twin, read.seqNo);
    var u := Run(v, inserts);
    InsertsAreSafe(v, inserts);
    assert u.workers[k] == w.workers[k];
    var last := u.rows[|u.rows| - 1];
    assert last in u.rows && SwapMatches(last, read);
    steps := inserts + [Swap(k)];
    RunThen(v, inserts, Swap(k));
    var landed := Next(u, Swap(k));
    assert landed.rows[|landed.rows| - 1] in landed.rows;
  }

  /** Sweeping a SQLite table lets some later run queue an event again that was out of the queue if and only
      if a merge in flight has read a row above all that the sweep leaves. */
  lemma SweepRequeuesIff(w: World)
    requires Inv(w) && w.alloc.MaxPlusOne?
    ensures (exists steps, id :: Requeues(Swept(w), steps, id)) <==> ReadsAbove(w, Swept(w).high)
  {
    if ReadsAbove(w, Swept(w).high) {
      var k :| 0 <= k < |w.workers| && w.workers[k].Holding? && w.workers[k].read.seqNo > Swept(w).high;
      var steps := StaleReadingRequeues(w, k);
      assert Requeues(Swept(w), steps, w.workers[k].read.id);
    } else {
      SweepKeepsInv(w);
      forall steps, id | SafeRun(Swept(w), steps) && WasMinted(Swept(w), id) && !IsQueued(Swept(w).rows, id)
        ensures !IsQueued(Run(Swept(w), steps).rows, id)
      {
        NeverRequeued(Swept(w), steps, id);
      }
    }
  }
}
