// What a poll is sent, row by row, and that what has been answered is never sent again.
module DeliveryRows {
  import opened Wrappers
  import opened EventTable
  import opened AlbumMerge
  import opened AlbumGuarantees
  import opened Delivery

  /** A queued event of these repos past the cursor. */
  predicate IsDue(r: Row, repos: set<string>, since: int) {
    r.repo in repos && r.status == Queued && since < r.seqNo
  }

  // ---------------------------------------------------------------- one page

  /** A page is rows that are due, each once, oldest first; none of them is passed over, and one is left for the next
      page only if this one is full. */
  lemma PageHolds(rows: seq<Row>, repos: set<string>, since: int, limit: Option<int>)
    requires Ascending(rows)
    ensures var page := FetchSinceMany(rows, repos, since, limit);
      && (forall i, j :: 0 <= i < j < |page| ==> page[i].seqNo < page[j].seqNo)
      && (forall r :: r in page ==> r in rows && IsDue(r, repos, since))
      && (forall r, p :: r in rows && IsDue(r, repos, since) && p in page && r.seqNo <= p.seqNo ==> r in page)
      && (limit.Some? && 0 < limit.value ==> |page| <= limit.value)
      && ((forall r :: r in rows && IsDue(r, repos, since) ==> r in page)
          || (limit.Some? && 0 < limit.value == |page|))
  {
    var page, all := FetchSinceMany(rows, repos, since, limit), Backlog(rows, repos, since);
    BacklogExact(rows, repos, since);
    forall r | r in page ensures r in all {
      var i :| 0 <= i < |page| && page[i] == r;
      assert all[i] == r;
    }
    forall r, p | r in rows && IsDue(r, repos, since) && p in page && r.seqNo <= p.seqNo ensures r in page {
      var i :| 0 <= i < |all| && all[i] == r;
      var j :| 0 <= j < |page| && page[j] == p;
      assert all[j] == p && i <= j;
      assert page[i] == r;
    }
  }

  // ---------------------------------------------------------------- the clamp

  /** A cursor at or below the newest row of these repos, or not above zero, is taken as it is. One that is above is
      reset to just below their oldest queued row, or to their newest row if nothing is queued. */
  lemma ClampIs(rows: seq<Row>, repos: set<string>, since: int)
    requires Ascending(rows) && repos != {}
    ensures var clamped := ClampSinceMany(rows, repos, since);
      && (since <= 0 || (exists r :: r in rows && r.repo in repos && since <= r.seqNo) ==> clamped == since)
      && (since > 0 && (forall r :: r in rows && r.repo in repos ==> r.seqNo < since) ==>
            && (forall r :: r in rows && IsDue(r, repos, -1) ==> clamped < r.seqNo)
            && ((exists r :: r in rows && IsDue(r, repos, -1)) ==>
                  exists q :: q in rows && IsDue(q, repos, -1) && clamped == q.seqNo - 1)
            && ((forall r :: r in rows ==> !IsDue(r, repos, -1)) ==>
                  && (forall r :: r in rows && r.repo in repos ==> r.seqNo <= clamped)
                  && (clamped == 0 || exists r :: r in rows && r.repo in repos && r.seqNo == clamped)))
  {
    CeilingIsMax(rows, repos);
    BacklogExact(rows, repos, -1);
    var queued := Backlog(rows, repos, -1);
    forall r | r in rows && IsDue(r, repos, -1) ensures r in queued && queued[0].seqNo <= r.seqNo {
      var i :| 0 <= i < |queued| && queued[i] == r;
    }
    if queued != [] { assert queued[0] in queued; }
  }

  lemma ClampOfNoRepos(rows: seq<Row>, since: int)
    ensures ClampSinceMany(rows, {}, since) == 0
  {
  }

  // ---------------------------------------------------------------- polling

  /** A poll that is due anything is sent some of it and moves past it; what is left is the rest, and nothing else
      changes what is left. */
  lemma PollGetsOn(rows: seq<Row>, repos: set<string>, daemon: Daemon, limit: Option<int>)
    requires Ascending(rows)
    ensures var start, after := PollStart(rows, repos, daemon.cursor), AfterPoll(rows, repos, daemon, limit);
      var page := FetchSinceMany(rows, repos, start, limit);
      && Backlog(rows, repos, after.cursor) == Backlog(rows, repos, start)[|page|..]
      && (Backlog(rows, repos, start) != [] ==> page != [])
      && start == (if daemon.cursor > 0 then ClampSinceMany(rows, repos, daemon.cursor) else daemon.cursor)
      && after.cursor == (if page == [] then start else page[|page| - 1].seqNo)
  {
    var start := PollStart(rows, repos, daemon.cursor);
    var page := FetchSinceMany(rows, repos, start, limit);
    if page != [] { BacklogResumes(rows, repos, start, |page|); }
  }

  /** The rows the daemon is sent over a run. */
  ghost function Sent(s: System, repos: set<string>, steps: seq<SystemStep>): seq<Row>
    decreases |steps|
  {
    if steps == [] then []
    else
      (match steps[0]
       case Server(_) => []
       case Poll(limit) =>
         FetchSinceMany(s.world.rows, repos, PollStart(s.world.rows, repos, s.daemon.cursor), limit))
      + Sent(NextSystem(s, repos, steps[0]), repos, steps[1..])
  }

  ghost predicate SafeServer(s: System, repos: set<string>, steps: seq<SystemStep>)
    decreases |steps|
  {
    steps != [] ==>
      && (steps[0].Server? ==> SafeStep(s.world, steps[0].step))
      && SafeServer(NextSystem(s, repos, steps[0]), repos, steps[1..])
  }

  /** Once an event has left the queue no poll is sent it again, from whatever cursor, whatever merges are in flight. */
  lemma {:induction false} AnsweredIsNeverSentAgain(s: System, repos: set<string>, steps: seq<SystemStep>, id: EventId)
    requires Inv(s.world) && SafeServer(s, repos, steps)
    requires WasMinted(s.world, id) && forall r :: r in s.world.rows && r.id == id ==> r.status != Queued
    ensures forall r :: r in Sent(s, repos, steps) ==> r.id != id
    decreases |steps|
  {
    if steps != [] {
      var next := NextSystem(s, repos, steps[0]);
      match steps[0] {
        case Server(step) =>
          assert !IsQueued(s.world.rows, id);
          StepNeverRequeues(s.world, step, id);
          StepKeepsInv(s.world, step);
          forall r | r in next.world.rows && r.id == id ensures r.status != Queued {
            assert !IsQueued(next.world.rows, id);
          }
        case Poll(limit) =>
          PageHolds(s.world.rows, repos, PollStart(s.world.rows, repos, s.daemon.cursor), limit);
      }
      AnsweredIsNeverSentAgain(next, repos, steps[1..], id);
    }
  }
}
