// Cursor delivery: `fetch_since_many`, its pages, the cursor clamp, and what a polling daemon
// is guaranteed to have received.
module Delivery {
  import opened Wrappers
  import opened EventTable
  import opened AlbumMerge
  import opened AlbumGuarantees

  // ---------------------------------------------------------------- queries

  predicate Wanted(r: Row, repos: set<string>, since: int) {
    r.repo in repos && r.seqNo > since && r.status == Queued
  }

  function Filter(repos: set<string>, since: int): Row -> Option<Row> {
    (r: Row) => if Wanted(r, repos, since) then Some(r) else None
  }

  /** The unbounded fetch: every queued row of these repos past the cursor, oldest first. */
  function Backlog(rows: seq<Row>, repos: set<string>, since: int): seq<Row> {
    Rewrite(rows, Filter(repos, since))
  }

  /** One page; no limit, or a limit that is not positive, means the whole backlog. */
  function FetchSinceMany(rows: seq<Row>, repos: set<string>, since: int, limit: Option<int>): seq<Row> {
    var all := Backlog(rows, repos, since);
    if limit.Some? && 0 < limit.value < |all| then all[..limit.value] else all
  }

  /** `max(seq)` over these repos, 0 when they have no row. */
  function Ceiling(rows: seq<Row>, repos: set<string>): nat {
    if rows == [] then 0
    else if rows[|rows| - 1].repo in repos then rows[|rows| - 1].seqNo
    else Ceiling(rows[..|rows| - 1], repos)
  }

  function ClampSinceMany(rows: seq<Row>, repos: set<string>, since: int): int {
    if repos == {} then 0
    else if since <= Ceiling(rows, repos) then since
    else
      var queued := Backlog(rows, repos, -1);
      if queued != [] then queued[0].seqNo - 1 else Ceiling(rows, repos)
  }

  // ---------------------------------------------------------------- what the fetch returns

  lemma BacklogMembers(rows: seq<Row>, repos: set<string>, since: int, r: Row)
    ensures r in Backlog(rows, repos, since) <==> r in rows && Wanted(r, repos, since)
  {
    var f := Filter(repos, since);
    if r in Backlog(rows, repos, since) {
      RewriteOrigin(rows, f, r);
    } else if r in rows && Wanted(r, repos, since) {
      RewriteImage(rows, f, r);
    }
  }

  /** The fetch is exactly the queued rows of these repos past the cursor, each once, in `seq` order. */
  lemma BacklogExact(rows: seq<Row>, repos: set<string>, since: int)
    requires Ascending(rows)
    ensures Ascending(Backlog(rows, repos, since))
    ensures forall r :: r in Backlog(rows, repos, since) <==>
      r in rows && r.repo in repos && since < r.seqNo && r.status == Queued
  {
    forall r ensures r in Backlog(rows, repos, since) <==> r in rows && Wanted(r, repos, since) {
      BacklogMembers(rows, repos, since, r);
    }
    BacklogAscends(rows, repos, since);
  }

  lemma {:induction false} BacklogAscends(rows: seq<Row>, repos: set<string>, since: int)
    requires Ascending(rows)
    ensures Ascending(Backlog(rows, repos, since))
  {
    if rows != [] {
      var n := |rows| - 1;
      BacklogAscends(rows[..n], repos, since);
      forall r | r in Backlog(rows[..n], repos, since) ensures r.seqNo < rows[n].seqNo {
        BacklogMembers(rows[..n], repos, since, r);
        var i :| 0 <= i < n && rows[..n][i] == r;
      }
    }
  }

  lemma {:induction false} CeilingIsMax(rows: seq<Row>, repos: set<string>)
    requires Ascending(rows)
    ensures forall r :: r in rows && r.repo in repos ==> r.seqNo <= Ceiling(rows, repos)
    ensures Ceiling(rows, repos) == 0 || exists r :: r in rows && r.repo in repos && r.seqNo == Ceiling(rows, repos)
    ensures Ceiling(rows, repos) <= MaxSeq(rows)
  {
    if rows != [] {
      var n := |rows| - 1;
      var init := rows[..n];
      CeilingIsMax(init, repos);
      if n > 0 { assert init[n - 1].seqNo < rows[n].seqNo; }
      CeilingBounds(rows, repos);
      assert rows[n] in rows && forall r :: r in init ==> r in rows;
    }
  }

  lemma {:induction false} CeilingBounds(rows: seq<Row>, repos: set<string>)
    requires Ascending(rows)
    ensures forall r :: r in rows && r.repo in repos ==> r.seqNo <= Ceiling(rows, repos)
  {
    if rows != [] {
      var n := |rows| - 1;
      CeilingBounds(rows[..n], repos);
      forall r | r in rows && r.repo in repos ensures r.seqNo <= Ceiling(rows, repos) {
        var i :| 0 <= i < |rows| && rows[i] == r;
        if i < n { assert rows[..n][i] == r; }
      }
    }
  }

  // ---------------------------------------------------------------- paging

  /** Reading on from the k-th event of a backlog is the rest of that backlog. */
  lemma {:induction false} BacklogResumes(rows: seq<Row>, repos: set<string>, since: int, k: nat)
    requires Ascending(rows)
    requires 0 < k <= |Backlog(rows, repos, since)|
    ensures Backlog(rows, repos, Backlog(rows, repos, since)[k - 1].seqNo) == Backlog(rows, repos, since)[k..]
  {
    var all := Backlog(rows, repos, since);
    var at := all[k - 1].seqNo;
    var n := |rows| - 1;
    var init := rows[..n];
    var before := Backlog(init, repos, since);
    BacklogMembers(rows, repos, since, all[k - 1]);
    if k <= |before| {
      assert all[k - 1] == before[k - 1];
      BacklogResumes(init, repos, since, k);
      BacklogMembers(init, repos, since, before[k - 1]);
      var i :| 0 <= i < n && init[i] == before[k - 1];
      assert at < rows[n].seqNo;
    } else {
      assert all == before + [rows[n]] && k == |all|;
      NothingPast(rows, repos, at);
    }
  }

  lemma {:induction false} NothingPast(rows: seq<Row>, repos: set<string>, at: int)
    requires forall r :: r in rows ==> r.seqNo <= at
    ensures Backlog(rows, repos, at) == []
    requires Ascending(rows)
  {
    if rows != [] {
      var n := |rows| - 1;
      assert rows[n] in rows;
      forall r | r in rows[..n] ensures r in rows {}
      NothingPast(rows[..n], repos, at);
    }
  }

  /** A daemon draining a standing backlog page by page, its cursor on the last event of each page. */
  function Drain(rows: seq<Row>, repos: set<string>, since: int, limit: int): (pages: seq<seq<Row>>)
    requires Ascending(rows) && limit > 0
    decreases |Backlog(rows, repos, since)|
  {
    var page := FetchSinceMany(rows, repos, since, Some(limit));
    if page == [] then []
    else
      BacklogResumes(rows, repos, since, |page|);
      [page] + Drain(rows, repos, page[|page| - 1].seqNo, limit)
  }

  function Concat(pages: seq<seq<Row>>): seq<Row> {
    if pages == [] then [] else pages[0] + Concat(pages[1..])
  }

  /** Pages of any size concatenate to the unbounded fetch: no gap, no repeat, no reorder. */
  lemma {:induction false} PagingIsLossless(rows: seq<Row>, repos: set<string>, since: int, limit: int)
    requires Ascending(rows) && limit > 0
    ensures Concat(Drain(rows, repos, since, limit)) == Backlog(rows, repos, since)
    ensures forall page :: page in Drain(rows, repos, since, limit) ==> 0 < |page| <= limit
    decreases |Backlog(rows, repos, since)|
  {
    var all := Backlog(rows, repos, since);
    var page := FetchSinceMany(rows, repos, since, Some(limit));
    if page != [] {
      BacklogResumes(rows, repos, since, |page|);
      var cursor := page[|page| - 1].seqNo;
      PagingIsLossless(rows, repos, cursor, limit);
      assert all == page + all[|page|..];
    }
  }

  // ---------------------------------------------------------------- the clamp

  /** A cursor some row of these repos could have produced is left alone. */
  lemma ClampKeepsLegitimate(rows: seq<Row>, repos: set<string>, since: int)
    requires Ascending(rows) && repos != {}
    ensures (exists r :: r in rows && r.repo in repos && since <= r.seqNo) ==>
      ClampSinceMany(rows, repos, since) == since
  {
    CeilingIsMax(rows, repos);
  }

  lemma ClampIsIdempotent(rows: seq<Row>, repos: set<string>, since: int)
    requires Ascending(rows)
    ensures ClampSinceMany(rows, repos, ClampSinceMany(rows, repos, since)) == ClampSinceMany(rows, repos, since)
    ensures since >= 0 ==> ClampSinceMany(rows, repos, since) <= since
  {
    CeilingIsMax(rows, repos);
    var queued := Backlog(rows, repos, -1);
    if queued != [] { BacklogMembers(rows, repos, -1, queued[0]); }
  }

  /** From a cursor above every row, the clamped drain delivers every queued row. */
  lemma ClampHealsBrokenCursor(rows: seq<Row>, repos: set<string>, since: int, limit: int)
    requires Ascending(rows) && limit > 0
    requires since > Ceiling(rows, repos)
    ensures Concat(Drain(rows, repos, ClampSinceMany(rows, repos, since), limit)) == Backlog(rows, repos, -1)
  {
    var start := ClampSinceMany(rows, repos, since);
    var queued := Backlog(rows, repos, -1);
    PagingIsLossless(rows, repos, start, limit);
    BacklogAscends(rows, repos, -1);
    CeilingIsMax(rows, repos);
    if repos == {} {
      NoRepos(rows, start);
      NoRepos(rows, -1);
    } else {
      forall r | r in rows && Wanted(r, repos, -1) ensures r.seqNo > start {
        BacklogMembers(rows, repos, -1, r);
        var i :| 0 <= i < |queued| && queued[i] == r;
      }
      SameWanted(rows, repos, start, -1);
    }
  }

  lemma {:induction false} NoRepos(rows: seq<Row>, since: int)
    ensures Backlog(rows, {}, since) == []
  {
    if rows != [] { NoRepos(rows[..|rows| - 1], since); }
  }

  lemma {:induction false} SameWanted(rows: seq<Row>, repos: set<string>, a: int, b: int)
    requires b <= a
    requires forall r :: r in rows && Wanted(r, repos, b) ==> r.seqNo > a
    ensures Backlog(rows, repos, a) == Backlog(rows, repos, b)
  {
    if rows != [] {
      var n := |rows| - 1;
      assert rows[n] in rows;
      forall r | r in rows[..n] ensures r in rows {}
      SameWanted(rows[..n], repos, a, b);
    }
  }

  // ---------------------------------------------------------------- a merge re-enters the window

  /** After a merge, the grown event is the last of every fetch whose cursor any existing row could have set. */
  lemma MergedIsRedelivered(w: World, k: nat, repos: set<string>, cursor: int)
    requires Inv(w)
    requires k < |w.workers| && w.workers[k].Holding? && StillCurrent(w.rows, w.workers[k].read)
    requires cursor <= MaxSeq(w.rows)
    requires w.workers[k].read.repo in repos
    ensures var v := Next(w, Swap(k));
            var read := w.workers[k].read;
            var fetched := Backlog(v.rows, repos, cursor);
            && fetched != []
            && fetched[|fetched| - 1].id == read.id
            && fetched[|fetched| - 1].attachments == read.attachments + w.workers[k].item.attachments
            && v.workers[k] == Landed(w.workers[k].item, read.id)
            && (forall r :: r in w.rows ==> r.seqNo < fetched[|fetched| - 1].seqNo)
  {
    NextSeqIsNew(w);
    var read := w.workers[k].read;
    var v := Next(w, Swap(k));
    assert ReadOk(read, w.rows, w.high, w.minted, w.now);
    assert MaxSeq(w.rows) <= w.high by {
      if w.rows != [] { assert w.rows[|w.rows| - 1] in w.rows; }
    }
    assert v.rows[|v.rows| - 1] == Replacement(read, w.workers[k].item, v.high, read.id);
    assert forall r :: r in w.rows ==> RowOk(r, w.high, w.minted, w.now);
  }

  /** Deleting first, the daemon at the old maximum is not given the merged event exactly when the row read was the
      newest; inserting first, it always is. */
  lemma DeleteFirstHidesTheMerge(rows: seq<Row>, read: Row, item: Item, repos: set<string>)
    requires Ascending(rows) && StillCurrent(rows, read) && read.seqNo >= 1 && read.status == Queued
    requires read.repo in repos
    ensures var kept := Rewrite(rows, DeleteIfCurrent(read));
            var merged := Replacement(read, item, NextSeq(MaxPlusOne, kept, MaxSeq(rows)), read.id);
            merged in Backlog(kept + [merged], repos, MaxSeq(rows)) <==> read.seqNo != MaxSeq(rows)
    ensures var kept := Rewrite(rows, DeleteIfCurrent(read));
            var merged := Replacement(read, item, NextSeq(MaxPlusOne, rows, MaxSeq(rows)), read.id);
            merged in Backlog(kept + [merged], repos, MaxSeq(rows))
  {
    var kept := Rewrite(rows, DeleteIfCurrent(read));
    var reused := Replacement(read, item, NextSeq(MaxPlusOne, kept, MaxSeq(rows)), read.id);
    var behind := Replacement(read, item, NextSeq(MaxPlusOne, rows, MaxSeq(rows)), read.id);
    DeleteFirstRecyclesSeq(rows, read, repos);
    BacklogMembers(kept + [reused], repos, MaxSeq(rows), reused);
    BacklogMembers(kept + [behind], repos, MaxSeq(rows), behind);
  }

  /** Why the replacement is inserted first: deleting first under max+1 frees the very seq it then reuses. */
  lemma DeleteFirstRecyclesSeq(rows: seq<Row>, read: Row, repos: set<string>)
    requires Ascending(rows) && StillCurrent(rows, read) && read.seqNo >= 1
    ensures NextSeq(MaxPlusOne, Rewrite(rows, DeleteIfCurrent(read)), MaxSeq(rows)) > MaxSeq(rows)
            <==> read.seqNo != MaxSeq(rows)
    ensures NextSeq(MaxPlusOne, rows, MaxSeq(rows)) > MaxSeq(rows)
  {
    var kept := Rewrite(rows, DeleteIfCurrent(read));
    var top := rows[|rows| - 1];
    var r :| r in rows && SwapMatches(r, read);
    if read.seqNo == top.seqNo {
      AscendingUnique(rows, r, top);
      if kept != [] {
        DeletedRowsAreOthers(rows, read, kept[|kept| - 1]);
        var i :| 0 <= i < |rows| && rows[i] == kept[|kept| - 1];
      }
    } else {
      assert DeleteIfCurrent(read)(top) == Some(top);
    }
  }

  // ---------------------------------------------------------------- a polling daemon over a whole run

  /** `got` remembers, per seq, the row as it was sent. */
  datatype Daemon = Daemon(cursor: int, got: map<nat, Row>)

  datatype SystemStep = Server(step: Step) | Poll(limit: Option<int>)

  datatype System = System(world: World, daemon: Daemon)

  /** The cursor a poll starts from: the router clamps only a positive one. */
  function PollStart(rows: seq<Row>, repos: set<string>, cursor: int): int {
    if cursor > 0 then ClampSinceMany(rows, repos, cursor) else cursor
  }

  function Remember(got: map<nat, Row>, page: seq<Row>): map<nat, Row> {
    if page == [] then got else Remember(got, page[..|page| - 1])[page[|page| - 1].seqNo := page[|page| - 1]]
  }

  function AfterPoll(rows: seq<Row>, repos: set<string>, daemon: Daemon, limit: Option<int>): Daemon {
    var start := PollStart(rows, repos, daemon.cursor);
    var page := FetchSinceMany(rows, repos, start, limit);
    Daemon(if page == [] then start else page[|page| - 1].seqNo, Remember(daemon.got, page))
  }

  ghost function NextSystem(s: System, repos: set<string>, step: SystemStep): System {
    match step
    case Server(inner) => s.(world := Next(s.world, inner))
    case Poll(limit) => s.(daemon := AfterPoll(s.world.rows, repos, s.daemon, limit))
  }

  ghost function RunSystem(s: System, repos: set<string>, steps: seq<SystemStep>): System
    decreases |steps|
  {
    if steps == [] then s else RunSystem(NextSystem(s, repos, steps[0]), repos, steps[1..])
  }

  /** A Postgres deployment may sweep at any time; a SQLite one may, as long as the daemon's cursor is not above
      all that the sweep leaves. */
  predicate CursorSurvives(s: System, step: SystemStep) {
    step.Server? && step.step.Sweep? && s.world.alloc.MaxPlusOne? ==> s.daemon.cursor <= Swept(s.world).high
  }

  ghost predicate SafeSystemRun(s: System, repos: set<string>, steps: seq<SystemStep>)
    decreases |steps|
  {
    steps != [] ==> CursorSurvives(s, steps[0]) && SafeSystemRun(NextSystem(s, repos, steps[0]), repos, steps[1..])
  }

  /** The daemon holds this very version of the row: same event, same pointers unless they have been nulled since. */
  ghost predicate HasVersion(daemon: Daemon, r: Row) {
    r.seqNo in daemon.got && Inherits(daemon.got[r.seqNo], r)
  }

  ghost predicate NothingSkipped(s: System, repos: set<string>) {
    && s.daemon.cursor <= s.world.high
    && (forall r :: r in s.world.rows && r.repo in repos && r.status == Queued && r.seqNo <= s.daemon.cursor ==>
          HasVersion(s.daemon, r))
  }

  lemma {:induction false} RememberKeepsOthers(got: map<nat, Row>, page: seq<Row>, seqNo: nat)
    requires forall i :: 0 <= i < |page| ==> page[i].seqNo != seqNo
    ensures seqNo in Remember(got, page) <==> seqNo in got
    ensures seqNo in got ==> Remember(got, page)[seqNo] == got[seqNo]
  {
    if page != [] {
      RememberKeepsOthers(got, page[..|page| - 1], seqNo);
    }
  }

  lemma {:induction false} RememberHasPage(got: map<nat, Row>, page: seq<Row>, i: nat)
    requires Ascending(page) && i < |page|
    ensures page[i].seqNo in Remember(got, page) && Remember(got, page)[page[i].seqNo] == page[i]
  {
    var n := |page| - 1;
    if i < n {
      RememberHasPage(got, page[..n], i);
      assert page[i].seqNo < page[n].seqNo;
    }
  }

  lemma RememberHolds(got: map<nat, Row>, page: seq<Row>, r: Row)
    requires Ascending(page)
    ensures r in page ==> r.seqNo in Remember(got, page) && Remember(got, page)[r.seqNo] == r
    ensures (forall p :: p in page ==> p.seqNo != r.seqNo) ==>
              (r.seqNo in Remember(got, page) <==> r.seqNo in got) &&
              (r.seqNo in got ==> Remember(got, page)[r.seqNo] == got[r.seqNo])
  {
    if r in page {
      var i :| 0 <= i < |page| && page[i] == r;
      RememberHasPage(got, page, i);
    } else if forall i :: 0 <= i < |page| ==> page[i].seqNo != r.seqNo {
      RememberKeepsOthers(got, page, r.seqNo);
    }
  }

  /** A page holds every wanted row up to its own last event. */
  lemma PageIsContiguous(rows: seq<Row>, repos: set<string>, start: int, limit: Option<int>, r: Row)
    requires Ascending(rows)
    ensures var page := FetchSinceMany(rows, repos, start, limit);
            && Ascending(page)
            && (r in page ==> r in rows && Wanted(r, repos, start))
            && (page != [] && r in rows && Wanted(r, repos, start) && r.seqNo <= page[|page| - 1].seqNo ==> r in page)
            && (page == [] ==> Backlog(rows, repos, start) == [])
  {
    var all := Backlog(rows, repos, start);
    var page := FetchSinceMany(rows, repos, start, limit);
    BacklogAscends(rows, repos, start);
    BacklogMembers(rows, repos, start, r);
    if r in page {
      var i :| 0 <= i < |page| && page[i] == r;
      assert all[i] == r;
    }
    if page != [] && r in all && r.seqNo <= page[|page| - 1].seqNo {
      var i :| 0 <= i < |all| && all[i] == r;
      assert all[|page| - 1] == page[|page| - 1];
      assert page[i] == r;
    }
  }

  lemma PollAdvances(s: System, repos: set<string>, limit: Option<int>)
    requires Ordered(s.world) && s.daemon.cursor <= s.world.high
    ensures PollStart(s.world.rows, repos, s.daemon.cursor) <= s.daemon.cursor
    ensures AfterPoll(s.world.rows, repos, s.daemon, limit).cursor <= s.world.high
  {
    var rows := s.world.rows;
    var start := PollStart(rows, repos, s.daemon.cursor);
    var page := FetchSinceMany(rows, repos, start, limit);
    ClampIsIdempotent(rows, repos, s.daemon.cursor);
    if page != [] {
      var last := page[|page| - 1];
      PageIsContiguous(rows, repos, start, limit, last);
    }
  }

  lemma PollSkipsNothing(s: System, repos: set<string>, limit: Option<int>)
    requires Ordered(s.world) && NothingSkipped(s, repos)
    ensures NothingSkipped(NextSystem(s, repos, Poll(limit)), repos)
  {
    var rows := s.world.rows;
    var start := PollStart(rows, repos, s.daemon.cursor);
    var page := FetchSinceMany(rows, repos, start, limit);
    var after := AfterPoll(rows, repos, s.daemon, limit);
    PollAdvances(s, repos, limit);
    forall r | r in rows && r.repo in repos && r.status == Queued && r.seqNo <= after.cursor
      ensures HasVersion(after, r)
    {
      PageIsContiguous(rows, repos, start, limit, r);
      RememberHolds(s.daemon.got, page, r);
      if r.seqNo <= start {
        assert HasVersion(s.daemon, r);
        forall p | p in page ensures p.seqNo != r.seqNo {
          PageIsContiguous(rows, repos, start, limit, p);
        }
      } else {
        assert Inherits(r, r);
      }
    }
  }

  /** Whatever has been swept, a row of the next state is an old row rewritten or one past the last `seq`. */
  lemma RowsOrigin(w: World, step: Step, s: Row)
    requires Ordered(w) && s in Next(w, step).rows
    ensures (exists o :: o in w.rows && Inherits(o, s)) || s.seqNo > w.high
  {
    NextSeqIsBehind(w);
    if IsRewrite(step) {
      RewriteStepOrigin(w, step, s);
    } else if step.Swap? && step.k < |w.workers| && w.workers[step.k].Holding?
      && StillCurrent(w.rows, w.workers[step.k].read) {
      var f := DeleteIfCurrent(w.workers[step.k].read);
      if s in Rewrite(w.rows, f) {
        DeleteTrims(w.workers[step.k].read);
        RewrittenOrigin(w, f, s);
      }
    } else if s in w.rows {
      assert Inherits(s, s);
    }
  }

  lemma ServerSkipsNothing(s: System, repos: set<string>, step: Step)
    requires Ordered(s.world) && CursorSurvives(s, Server(step)) && NothingSkipped(s, repos)
    ensures NothingSkipped(NextSystem(s, repos, Server(step)), repos)
  {
    var v := Next(s.world, step);
    HighGrows(s.world, step);
    forall r | r in v.rows && r.repo in repos && r.status == Queued && r.seqNo <= s.daemon.cursor
      ensures HasVersion(s.daemon, r)
    {
      RowsOrigin(s.world, step, r);
      var o :| o in s.world.rows && Inherits(o, r);
      assert HasVersion(s.daemon, o);
    }
  }

  lemma HighGrows(w: World, step: Step)
    requires Ordered(w)
    ensures Next(w, step).high >= if step.Sweep? then Swept(w).high else w.high
    ensures w.alloc.Sequence? ==> Next(w, step).high >= w.high
  {
    NextSeqIsBehind(w);
  }

  /** In every run, every queued row at or below the daemon's cursor has reached the daemon in its current version. */
  lemma {:induction false} NoQueuedRowIsSkipped(s: System, repos: set<string>, steps: seq<SystemStep>)
    requires Ordered(s.world) && NothingSkipped(s, repos) && SafeSystemRun(s, repos, steps)
    ensures Ordered(RunSystem(s, repos, steps).world) && NothingSkipped(RunSystem(s, repos, steps), repos)
    decreases |steps|
  {
    if steps != [] {
      match steps[0] {
        case Server(step) =>
          OrderedStep(s.world, step);
          ServerSkipsNothing(s, repos, step);
        case Poll(limit) => PollSkipsNothing(s, repos, limit);
      }
      NoQueuedRowIsSkipped(NextSystem(s, repos, steps[0]), repos, steps[1..]);
    }
  }

  /** A queued event of the daemon's repos that it does not hold and that its fetches will not return. */
  ghost predicate Lost(s: System, repos: set<string>, r: Row) {
    && r in s.world.rows && r.repo in repos && r.status == Queued && !HasVersion(s.daemon, r)
    && Backlog(s.world.rows, repos, s.daemon.cursor) == []
  }

  /** A daemon that has drained its backlog holds every queued event of its repos, whatever merged meanwhile. */
  lemma DrainedMeansDelivered(s: System, repos: set<string>, steps: seq<SystemStep>, r: Row)
    requires Ordered(s.world) && NothingSkipped(s, repos) && SafeSystemRun(s, repos, steps)
    ensures !Lost(RunSystem(s, repos, steps), repos, r)
  {
    NoQueuedRowIsSkipped(s, repos, steps);
    var v := RunSystem(s, repos, steps);
    BacklogMembers(v.world.rows, repos, v.daemon.cursor, r);
  }

  /** From an empty table and a daemon that has read nothing. */
  lemma StartsWithNothingSkipped(w: World, repos: set<string>)
    requires Init(w)
    ensures Ordered(w) && NothingSkipped(System(w, Daemon(0, map[])), repos)
  {
  }

  /** From the empty table and a daemon that has read nothing: what is drained has been delivered. */
  lemma DeliveredFromTheStart(w: World, repos: set<string>, steps: seq<SystemStep>, r: Row)
    requires Init(w) && SafeSystemRun(System(w, Daemon(0, map[])), repos, steps)
    ensures !Lost(RunSystem(System(w, Daemon(0, map[])), repos, steps), repos, r)
  {
    StartsWithNothingSkipped(w, repos);
    DrainedMeansDelivered(System(w, Daemon(0, map[])), repos, steps, r);
  }
}
