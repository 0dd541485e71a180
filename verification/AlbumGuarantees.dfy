// What the album protocol promises its callers, over every run of every interleaving.
module AlbumGuarantees {
  import opened Wrappers
  import opened EventTable
  import opened Text
  import opened AlbumMerge

  // ---------------------------------------------------------------- where a row comes from

  /** `s` is what became of `o` under one rewrite. */
  ghost predicate Inherits(o: Row, s: Row) {
    && SameEvent(o, s)
    && (s.status == Queued ==> o.status == Queued)
    && (s.body == o.body || s.body == None)
    && (s.attachments == o.attachments || s.attachments == [])
  }

  /** `s` was written behind every existing row: a new event, or a queued one with more pointers. */
  ghost predicate Appended(w: World, s: Row) {
    && s.seqNo > w.high && s.status == Queued
    && (s.id == Minted(w.minted) ||
        exists o :: o in w.rows && o.status == Queued && o.id == s.id && SameMerge(o, s))
  }

  ghost predicate SameMerge(o: Row, s: Row) {
    && o.repo == s.repo && o.createdAt == s.createdAt && o.group == s.group
    && o.attachments <= s.attachments
    && (s.body == o.body || Blank(o.body.GetOr("")))
  }

  lemma RewrittenOrigin(w: World, f: Row -> Option<Row>, s: Row)
    requires Trims(f) && s in Rewrite(w.rows, f)
    ensures exists o :: o in w.rows && Inherits(o, s)
  {
    RewriteOrigin(w.rows, f, s);
    var o :| o in w.rows && f(o) == Some(s);
    assert Inherits(o, s);
  }

  lemma SwapOrigin(w: World, k: nat, s: Row)
    requires Inv(w) && k < |w.workers| && w.workers[k].Holding?
    requires s in Next(w, Swap(k)).rows
    ensures (exists o :: o in w.rows && Inherits(o, s)) || Appended(w, s)
  {
    var read := w.workers[k].read;
    NextSeqIsNew(w);
    if StillCurrent(w.rows, read) {
      var f := DeleteIfCurrent(read);
      if s in Rewrite(w.rows, f) {
        DeleteTrims(read);
        RewrittenOrigin(w, f, s);
      } else {
        var o :| o in w.rows && SwapMatches(o, read);
        assert ReadOk(read, w.rows, w.high, w.minted, w.now);
        assert SameEvent(o, read) && RowOk(o, w.high, w.minted, w.now);
        assert SameMerge(o, s);
      }
    } else {
      assert Inherits(s, s);
    }
  }

  lemma RewriteStepOrigin(w: World, step: Step, s: Row)
    requires IsRewrite(step) && s in Next(w, step).rows
    ensures exists o :: o in w.rows && Inherits(o, s)
  {
    StepIsRewrite(w, step);
    StepAges(w, step);
    RewrittenOrigin(w, RewriteBy(w, step), s);
  }

  lemma MintOrigin(w: World, k: nat, s: Row)
    requires Inv(w) && s in Next(w, Mint(k)).rows
    ensures (exists o :: o in w.rows && Inherits(o, s)) || Appended(w, s)
  {
    NextSeqIsNew(w);
    if s in w.rows { assert Inherits(s, s); }
  }

  /** Every row of the next state is an old row rewritten, or one appended behind all of them. */
  lemma StepOrigin(w: World, step: Step, s: Row)
    requires Inv(w)
    requires s in Next(w, step).rows
    ensures (exists o :: o in w.rows && Inherits(o, s)) || Appended(w, s)
  {
    if step.Swap? && step.k < |w.workers| && w.workers[step.k].Holding? {
      SwapOrigin(w, step.k, s);
    } else if step.Mint? {
      MintOrigin(w, step.k, s);
    } else if IsRewrite(step) {
      RewriteStepOrigin(w, step, s);
    } else {
      assert Inherits(s, s);
    }
  }

  // ---------------------------------------------------------------- no event is resurrected

  ghost predicate IsQueued(rows: seq<Row>, id: EventId) {
    exists r :: r in rows && r.id == id && r.status == Queued
  }

  ghost predicate WasMinted(w: World, id: EventId) {
    id.Minted? && id.n < w.minted
  }

  lemma StepNeverRequeues(w: World, step: Step, id: EventId)
    requires Inv(w)
    requires WasMinted(w, id) && !IsQueued(w.rows, id)
    ensures WasMinted(Next(w, step), id) && !IsQueued(Next(w, step).rows, id)
  {
    var v := Next(w, step);
    forall s | s in v.rows && s.id == id ensures s.status != Queued {
      StepOrigin(w, step, s);
    }
  }

  /** Once an event has left the queue (answered, noted, expired, swept), no later merge queues it again. */
  lemma {:induction false} NeverRequeued(w: World, steps: seq<Step>, id: EventId)
    requires Inv(w) && SafeRun(w, steps)
    requires WasMinted(w, id) && !IsQueued(w.rows, id)
    ensures !IsQueued(Run(w, steps).rows, id)
    decreases |steps|
  {
    if steps != [] {
      StepNeverRequeues(w, steps[0], id);
      StepKeepsInv(w, steps[0]);
      NeverRequeued(Next(w, steps[0]), steps[1..], id);
    }
  }

  /** A close is final: the closed event is never queued again, whatever merges are in flight. */
  lemma ClosedStaysClosed(w: World, at: nat, response: Response, steps: seq<Step>, r: Row)
    requires Inv(w) && r in w.rows && r.seqNo == at
    requires SafeRun(Next(w, Close(at, response)), steps)
    ensures !IsQueued(Run(Next(w, Close(at, response)), steps).rows, r.id)
  {
    var f := CloseAt(at, response);
    var v := Next(w, Close(at, response));
    forall s | s in v.rows && s.id == r.id ensures s.status != Queued {
      RewriteOrigin(w.rows, f, s);
      var o :| o in w.rows && f(o) == Some(s);
      DistinctIdsUnique(w.rows, o, r);
    }
    StepKeepsInv(w, Close(at, response));
    assert RowOk(r, w.high, w.minted, w.now);
    NeverRequeued(v, steps, r.id);
  }

  // ---------------------------------------------------------------- every pointer once

  lemma {:induction false} HeldHasRow(rows: seq<Row>, i: nat, p: Pointer)
    requires i < |rows|
    ensures Held(rows)[p] >= multiset(rows[i].attachments)[p]
  {
    var n := |rows| - 1;
    if i < n { HeldHasRow(rows[..n], i, p); }
  }

  lemma {:induction false} HeldHasTwo(rows: seq<Row>, i: nat, j: nat, p: Pointer)
    requires i < j < |rows|
    ensures Held(rows)[p] >= multiset(rows[i].attachments)[p] + multiset(rows[j].attachments)[p]
  {
    var n := |rows| - 1;
    if j < n { HeldHasTwo(rows[..n], i, j, p); } else { HeldHasRow(rows[..n], i, p); }
  }

  lemma HeldSplits(rows: seq<Row>, i: nat, p: Pointer)
    requires i < |rows|
    ensures Held(rows)[p] >= multiset(rows[i].attachments)[p]
    ensures forall j :: 0 <= j < |rows| && j != i ==>
              Held(rows)[p] >= multiset(rows[i].attachments)[p] + multiset(rows[j].attachments)[p]
  {
    HeldHasRow(rows, i, p);
    forall j | 0 <= j < |rows| && j != i
      ensures Held(rows)[p] >= multiset(rows[i].attachments)[p] + multiset(rows[j].attachments)[p]
    {
      if i < j { HeldHasTwo(rows, i, j, p); } else { HeldHasTwo(rows, j, i, p); }
    }
  }

  lemma {:induction false} HeldSomewhere(rows: seq<Row>, p: Pointer)
    requires p in Held(rows)
    ensures exists r :: r in rows && p in r.attachments
  {
    var n := |rows| - 1;
    if p in rows[n].attachments {
      assert rows[n] in rows;
    } else {
      HeldSomewhere(rows[..n], p);
    }
  }

  /** What holds in every run, whatever is swept and however stale a reading is. */
  ghost predicate Tame(w: World) {
    && (forall r :: r in w.rows ==> TameRow(r))
    && (forall k :: 0 <= k < |w.workers| && w.workers[k].Holding? ==>
          TameRow(w.workers[k].read) && w.workers[k].read.status == Queued)
  }

  predicate TameRow(r: Row) {
    r.id.Minted? && (r.status == Responded ==> r.attachments == [])
  }

  lemma TrimKeepsTame(w: World, f: Row -> Option<Row>)
    requires Tame(w) && Trims(f)
    ensures forall s :: s in Rewrite(w.rows, f) ==> TameRow(s)
  {
    forall s | s in Rewrite(w.rows, f) ensures TameRow(s) {
      RewriteOrigin(w.rows, f, s);
      var o :| o in w.rows && f(o) == Some(s);
      assert SameEvent(o, f(o).value);
    }
  }

  lemma TrimStepKeepsTame(w: World, step: Step)
    requires Tame(w) && IsRewrite(step)
    ensures Tame(Next(w, step))
  {
    StepIsRewrite(w, step);
    StepAges(w, step);
    TrimKeepsTame(w, RewriteBy(w, step));
  }

  lemma SwapKeepsTame(w: World, k: nat)
    requires Tame(w) && k < |w.workers| && w.workers[k].Holding?
    ensures Tame(Next(w, Swap(k)))
  {
    DeleteTrims(w.workers[k].read);
    TrimKeepsTame(w, DeleteIfCurrent(w.workers[k].read));
  }

  lemma StepKeepsTame(w: World, step: Step)
    requires Tame(w)
    ensures Tame(Next(w, step))
  {
    if IsRewrite(step) {
      TrimStepKeepsTame(w, step);
    } else if step.Swap? && step.k < |w.workers| && w.workers[step.k].Holding? {
      SwapKeepsTame(w, step.k);
    }
  }

  lemma {:induction false} RunKeepsTame(w: World, steps: seq<Step>)
    requires Tame(w)
    ensures Tame(Run(w, steps))
    decreases |steps|
  {
    if steps != [] {
      StepKeepsTame(w, steps[0]);
      RunKeepsTame(Next(w, steps[0]), steps[1..]);
    }
  }

  /** An accepted pointer sent once and not dropped is on exactly one row, that row is queued, and it is there once. */
  lemma EveryPointerOnce(w: World, p: Pointer)
    requires Conserved(w) && Tame(w)
    requires Accepted(w.workers)[p] == 1 && p !in w.dropped
    ensures exists i :: 0 <= i < |w.rows| && w.rows[i].status == Queued && multiset(w.rows[i].attachments)[p] == 1
                        && forall j :: 0 <= j < |w.rows| && j != i ==> p !in w.rows[j].attachments
  {
    assert Held(w.rows)[p] == 1;
    HeldSomewhere(w.rows, p);
    var r :| r in w.rows && p in r.attachments;
    var i :| 0 <= i < |w.rows| && w.rows[i] == r;
    HeldSplits(w.rows, i, p);
    forall j | 0 <= j < |w.rows| && j != i ensures p !in w.rows[j].attachments {
      assert Held(w.rows)[p] >= multiset(w.rows[i].attachments)[p] + multiset(w.rows[j].attachments)[p];
    }
  }

  /** The same over every run from an empty table, with no condition on sweeps. Only that no two rows share an id
      asks for safe sweeps. */
  lemma NoPointerLostOrDoubled(w: World, steps: seq<Step>)
    requires Init(w)
    ensures var v := Run(w, steps);
            && Held(v.rows) + v.dropped == Accepted(v.workers)
            && (forall r :: r in v.rows ==> r.id.Minted?)
            && (forall p :: Accepted(v.workers)[p] == 1 && p !in v.dropped ==>
                  exists i :: 0 <= i < |v.rows| && v.rows[i].status == Queued && multiset(v.rows[i].attachments)[p] == 1
                              && forall j :: 0 <= j < |v.rows| && j != i ==> p !in v.rows[j].attachments)
            && (SafeRun(w, steps) ==> DistinctIds(v.rows))
  {
    InitInv(w);
    PointersAlwaysConserved(w, steps);
    RunKeepsTame(w, steps);
    if SafeRun(w, steps) { RunKeepsInv(w, steps); }
    var v := Run(w, steps);
    forall p | Accepted(v.workers)[p] == 1 && p !in v.dropped
      ensures exists i :: 0 <= i < |v.rows| && v.rows[i].status == Queued && multiset(v.rows[i].attachments)[p] == 1
                          && forall j :: 0 <= j < |v.rows| && j != i ==> p !in v.rows[j].attachments
    {
      EveryPointerOnce(v, p);
    }
  }
}
