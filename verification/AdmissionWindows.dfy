// Sliding windows over whole runs of the interleaved inbox: how many events of an account any
// window can hold when every arrival passed admission first.
//
// Admission and the insert it allows are separate transactions, so a request is in flight from one
// to the other. The bound is stated for any number of requests in flight at once; with one at a
// time it is the configured limit.
module AdmissionWindows {
  import opened Wrappers
  import opened EventTable
  import opened AlbumMerge
  import opened Limits

  // ---------------------------------------------------------------- counting a window

  predicate Inside(r: Row, owners: Owners, account: string, from: int, to: int) {
    OwnedBy(owners, r, account) && from <= r.createdAt <= to
  }

  /** The account's rows created in `[from, to]`. */
  function EventsIn(rows: seq<Row>, owners: Owners, account: string, from: int, to: int): nat {
    if rows == [] then 0
    else
      EventsIn(rows[..|rows| - 1], owners, account, from, to)
        + if Inside(rows[|rows| - 1], owners, account, from, to) then 1 else 0
  }

  lemma EventsInAppend(rows: seq<Row>, r: Row, owners: Owners, account: string, from: int, to: int)
    ensures EventsIn(rows + [r], owners, account, from, to) ==
      EventsIn(rows, owners, account, from, to) + if Inside(r, owners, account, from, to) then 1 else 0
  {
    assert (rows + [r])[..|rows|] == rows;
  }

  /** The window never holds more than the admission check counts from its start. */
  lemma {:induction false} WindowWithinCount(rows: seq<Row>, owners: Owners, account: string, from: int, to: int,
                                             since: int)
    requires since <= from
    ensures EventsIn(rows, owners, account, from, to) <= AccountEventCount(rows, owners, account, since)
  {
    if rows != [] {
      WindowWithinCount(rows[..|rows| - 1], owners, account, from, to, since);
    }
  }

  /** With no row from the future, the check counts exactly the window that ends now. */
  lemma {:induction false} CountIsWindow(rows: seq<Row>, owners: Owners, account: string, since: int, now: int)
    requires forall r :: r in rows ==> r.createdAt <= now
    ensures AccountEventCount(rows, owners, account, since) == EventsIn(rows, owners, account, since, now)
  {
    if rows != [] {
      assert rows[|rows| - 1] in rows;
      CountIsWindow(rows[..|rows| - 1], owners, account, since, now);
    }
  }

  /** In every state the inbox reaches, a message of acceptable shape is refused if and only if the minute
      or the day ending now already holds a limit that binds the account. */
  lemma RefusedIffWindowFull(w: World, settings: Settings, owners: Owners, account: string, standing: Standing,
                             body: string, attachments: nat)
    requires AlbumMerge.Inv(w) && Utf8Length(body) <= settings.maxBodyBytes && attachments <= settings.maxAttachments
    ensures CheckEventAdmission(settings, w.rows, owners, Some(account), standing, body, attachments, w.now).Deny? <==>
      var minute, day :=
        EventsIn(w.rows, owners, account, w.now - MINUTE, w.now), EventsIn(w.rows, owners, account, w.now - DAY, w.now);
      || minute >= settings.abusePerMinute || day >= settings.abusePerDay
      || (standing == Free && (minute >= settings.freePerMinute || day >= settings.freePerDay))
  {
    assert forall r :: r in w.rows ==> RowOk(r, w.high, w.minted, w.now);
    CountIsWindow(w.rows, owners, account, w.now - MINUTE, w.now);
    CountIsWindow(w.rows, owners, account, w.now - DAY, w.now);
  }

  /** Rewrites keep repo and creation time, so no window ever gains a row from one. */
  lemma {:induction false} RewriteCountsNoMore(rows: seq<Row>, f: Row -> Option<Row>, owners: Owners, account: string,
                                               from: int, to: int)
    requires Trims(f)
    ensures EventsIn(Rewrite(rows, f), owners, account, from, to) <= EventsIn(rows, owners, account, from, to)
  {
    if rows != [] {
      var n := |rows| - 1;
      RewriteCountsNoMore(rows[..n], f, owners, account, from, to);
      if f(rows[n]).Some? {
        assert SameEvent(rows[n], f(rows[n]).value);
        EventsInAppend(Rewrite(rows[..n], f), f(rows[n]).value, owners, account, from, to);
      }
    }
  }

  /** The row a worker read is the last one: everything before it stays. */
  lemma NothingElseDeleted(rows: seq<Row>, read: Row)
    requires rows != [] && Ascending(rows) && SwapMatches(rows[|rows| - 1], read)
    ensures Rewrite(rows, DeleteIfCurrent(read)) == rows[..|rows| - 1]
  {
    var n, f := |rows| - 1, DeleteIfCurrent(read);
    forall r | r in rows[..n] ensures f(r) == Some(r) {
      var i :| 0 <= i < n && rows[i] == r;
    }
    RewriteIdentity(rows[..n], f);
  }

  /** Deleting the row a worker read takes exactly that row out of every window. */
  lemma {:induction false} DeleteCountsOneLess(rows: seq<Row>, read: Row, owners: Owners, account: string, from: int,
                                               to: int)
    requires Ascending(rows) && StillCurrent(rows, read)
    requires forall r :: r in rows && r.seqNo == read.seqNo ==> SameEvent(r, read)
    ensures EventsIn(Rewrite(rows, DeleteIfCurrent(read)), owners, account, from, to)
      + (if Inside(read, owners, account, from, to) then 1 else 0)
      == EventsIn(rows, owners, account, from, to)
  {
    var n, f := |rows| - 1, DeleteIfCurrent(read);
    var init := rows[..n];
    assert rows[n] in rows;
    if SwapMatches(rows[n], read) {
      NothingElseDeleted(rows, read);
    } else {
      var r :| r in rows && SwapMatches(r, read);
      assert r in init;
      DeleteCountsOneLess(init, read, owners, account, from, to);
      EventsInAppend(Rewrite(init, f), rows[n], owners, account, from, to);
    }
  }

  /** A merge keeps every account's count in every window: the replacement carries the read row's
      repo and creation time. */
  lemma MergeKeepsCounts(w: World, k: nat, owners: Owners, account: string, from: int, to: int)
    requires AlbumMerge.Inv(w) && k < |w.workers| && w.workers[k].Holding?
    ensures EventsIn(Next(w, Swap(k)).rows, owners, account, from, to) == EventsIn(w.rows, owners, account, from, to)
  {
    var read := w.workers[k].read;
    if StillCurrent(w.rows, read) {
      assert ReadOk(read, w.rows, w.high, w.minted, w.now);
      DeleteCountsOneLess(w.rows, read, owners, account, from, to);
      EventsInAppend(Rewrite(w.rows, DeleteIfCurrent(read)),
                     Replacement(read, w.workers[k].item, NextSeq(w.alloc, w.rows, w.high), read.id),
                     owners, account, from, to);
    }
  }

  // ---------------------------------------------------------------- requests in flight

  predicate InFlight(worker: Worker, owners: Owners, account: string) {
    !worker.Landed? && worker.item.repo in owners && owners[worker.item.repo] == account
  }

  /** Admitted requests of the account that have not finished yet. */
  function Pending(workers: seq<Worker>, owners: Owners, account: string): nat {
    if workers == [] then 0
    else
      Pending(workers[..|workers| - 1], owners, account) + if InFlight(workers[|workers| - 1], owners, account) then 1
        else 0
  }

  lemma {:induction false} PendingUpdate(workers: seq<Worker>, k: nat, to: Worker, owners: Owners, account: string)
    requires k < |workers|
    ensures Pending(workers[k := to], owners, account) + (if InFlight(workers[k], owners, account) then 1 else 0)
      == Pending(workers, owners, account) + (if InFlight(to, owners, account) then 1 else 0)
  {
    var n := |workers| - 1;
    if k == n {
      assert workers[k := to][..n] == workers[..n];
    } else {
      PendingUpdate(workers[..n], k, to, owners, account);
      assert workers[k := to][..n] == workers[..n][k := to];
    }
  }

  lemma PendingArrive(workers: seq<Worker>, worker: Worker, owners: Owners, account: string)
    ensures Pending(workers + [worker], owners, account) ==
      Pending(workers, owners, account) + if InFlight(worker, owners, account) then 1 else 0
  {
    assert (workers + [worker])[..|workers|] == workers;
  }

  // ---------------------------------------------------------------- the bound

  /** The account whose windows are watched, their width, the limit that admitted its arrivals, and the
      most requests it ever has in flight at once. */
  datatype Watch = Watch(owners: Owners, account: string, width: nat, limit: int, peak: nat)

  function Bound(watch: Watch): int {
    (if watch.limit >= 1 then watch.limit else 1) - 1 + watch.peak
  }

  /** An arrival of the account found fewer than `limit` rows in the window ending now. */
  predicate UnderLimit(w: World, step: Step, watch: Watch) {
    step.Arrive? && step.item.repo in watch.owners && watch.owners[step.item.repo] == watch.account ==>
      AccountEventCount(w.rows, watch.owners, watch.account, w.now - watch.width) < watch.limit
  }

  ghost predicate Watched(w: World, steps: seq<Step>, watch: Watch)
    decreases |steps|
  {
    && Pending(w.workers, watch.owners, watch.account) <= watch.peak
    && (steps != [] ==> UnderLimit(w, steps[0], watch) && Watched(Next(w, steps[0]), steps[1..], watch))
  }

  function InWindow(rows: seq<Row>, watch: Watch, from: int): nat {
    EventsIn(rows, watch.owners, watch.account, from, from + watch.width)
  }

  /** Rows already in the window, and requests that could still land in it, stay within the bound;
      `from` ranges over the windows free of earlier rows. */
  ghost predicate WindowOk(w: World, watch: Watch, from: int) {
    InWindow(w.rows, watch, from)
      + (if from + watch.width >= w.now then Pending(w.workers, watch.owners, watch.account) else 0) <= Bound(watch)
  }

  lemma ArriveKeepsWindow(w: World, item: Item, watch: Watch, from: int)
    requires WindowOk(w, watch, from) && UnderLimit(w, Arrive(item), watch)
    requires Pending(Next(w, Arrive(item)).workers, watch.owners, watch.account) <= watch.peak
    ensures WindowOk(Next(w, Arrive(item)), watch, from)
  {
    var v := Next(w, Arrive(item));
    assert v.rows == w.rows && v.now == w.now && v.workers == w.workers + [Arrival(item)];
    PendingArrive(w.workers, Arrival(item), watch.owners, watch.account);
    if from + watch.width >= w.now && InFlight(Arrival(item), watch.owners, watch.account) {
      WindowWithinCount(w.rows, watch.owners, watch.account, from, from + watch.width, w.now - watch.width);
    }
  }

  lemma SearchKeepsWindow(w: World, k: nat, watch: Watch, from: int)
    requires WindowOk(w, watch, from) && k < |w.workers| && w.workers[k].Searching?
    ensures WindowOk(Next(w, Search(k)), watch, from)
  {
    PendingUpdate(w.workers, k, Next(w, Search(k)).workers[k], watch.owners, watch.account);
  }

  lemma SwapKeepsWindow(w: World, k: nat, watch: Watch, from: int)
    requires AlbumMerge.Inv(w) && WindowOk(w, watch, from) && k < |w.workers| && w.workers[k].Holding?
    ensures WindowOk(Next(w, Swap(k)), watch, from)
  {
    PendingUpdate(w.workers, k, Next(w, Swap(k)).workers[k], watch.owners, watch.account);
    MergeKeepsCounts(w, k, watch.owners, watch.account, from, from + watch.width);
  }

  /** The request lands: one row more, one request in flight less. */
  lemma MintKeepsWindow(w: World, k: nat, watch: Watch, from: int)
    requires WindowOk(w, watch, from) && k < |w.workers| && w.workers[k].Minting?
    ensures WindowOk(Next(w, Mint(k)), watch, from)
  {
    var item, v := w.workers[k].item, Next(w, Mint(k));
    var row := FreshRow(item, NextSeq(w.alloc, w.rows, w.high), Minted(w.minted), w.now);
    assert v == MintResult(w, k, item);
    PendingUpdate(w.workers, k, Landed(item, Minted(w.minted)), watch.owners, watch.account);
    EventsInAppend(w.rows, row, watch.owners, watch.account, from, from + watch.width);
    assert OwnedBy(watch.owners, row, watch.account) <==> InFlight(w.workers[k], watch.owners, watch.account);
  }

  /** Closes, expiry and the sweep. */
  lemma TrimKeepsWindow(w: World, step: Step, watch: Watch, from: int)
    requires WindowOk(w, watch, from) && IsRewrite(step)
    ensures WindowOk(Next(w, step), watch, from)
  {
    StepIsRewrite(w, step);
    StepAges(w, step);
    RewriteCountsNoMore(w.rows, RewriteBy(w, step), watch.owners, watch.account, from, from + watch.width);
  }

  /** A step of a request, enabled or not. */
  lemma WorkerKeepsWindow(w: World, step: Step, watch: Watch, from: int)
    requires AlbumMerge.Inv(w) && WindowOk(w, watch, from)
    requires step.Search? || step.Swap? || step.Mint?
    ensures WindowOk(Next(w, step), watch, from)
  {
    if step.k < |w.workers| {
      if step.Search? && w.workers[step.k].Searching? { SearchKeepsWindow(w, step.k, watch, from); }
      if step.Swap? && w.workers[step.k].Holding? { SwapKeepsWindow(w, step.k, watch, from); }
      if step.Mint? && w.workers[step.k].Minting? { MintKeepsWindow(w, step.k, watch, from); }
    }
  }

  lemma StepKeepsWindow(w: World, step: Step, watch: Watch, from: int)
    requires AlbumMerge.Inv(w) && WindowOk(w, watch, from) && UnderLimit(w, step, watch)
    requires Pending(Next(w, step).workers, watch.owners, watch.account) <= watch.peak
    ensures WindowOk(Next(w, step), watch, from)
  {
    if step.Arrive? {
      ArriveKeepsWindow(w, step.item, watch, from);
    } else if step.Search? || step.Swap? || step.Mint? {
      WorkerKeepsWindow(w, step, watch, from);
    } else if !step.Tick? {
      TrimKeepsWindow(w, step, watch, from);
    }
  }

  lemma {:induction false} RunKeepsWindow(w: World, steps: seq<Step>, watch: Watch, from: int)
    requires AlbumMerge.Inv(w) && SafeRun(w, steps) && Watched(w, steps, watch) && WindowOk(w, watch, from)
    ensures WindowOk(Run(w, steps), watch, from)
    decreases |steps|
  {
    if steps != [] {
      StepKeepsWindow(w, steps[0], watch, from);
      AlbumMerge.StepKeepsInv(w, steps[0]);
      RunKeepsWindow(Next(w, steps[0]), steps[1..], watch, from);
    }
  }

  // ---------------------------------------------------------------- windows still open

  /** A merge in flight has read a row of its own repo; true in every run, whatever is swept. */
  ghost predicate OwnRepo(w: World) {
    forall k :: 0 <= k < |w.workers| && w.workers[k].Holding? ==> w.workers[k].read.repo == w.workers[k].item.repo
  }

  ghost predicate StillOpen(w: World, watch: Watch, from: int) {
    from + watch.width >= w.now
  }

  lemma StepKeepsOwnRepo(w: World, step: Step)
    requires OwnRepo(w)
    ensures OwnRepo(Next(w, step)) && w.now <= Next(w, step).now
  {
  }

  /** Even a merge that takes the wrong row adds at most one row to the window, and then its own request is over. */
  lemma SwapKeepsOpenWindow(w: World, k: nat, watch: Watch, from: int)
    requires OwnRepo(w) && WindowOk(w, watch, from) && StillOpen(w, watch, from)
    requires k < |w.workers| && w.workers[k].Holding?
    ensures WindowOk(Next(w, Swap(k)), watch, from)
  {
    var read, item, v := w.workers[k].read, w.workers[k].item, Next(w, Swap(k));
    assert v.workers == w.workers[k := v.workers[k]] && v.now == w.now;
    PendingUpdate(w.workers, k, v.workers[k], watch.owners, watch.account);
    if StillCurrent(w.rows, read) { SwapAddsAtMost(w, k, watch, from); }
  }

  lemma SwapAddsAtMost(w: World, k: nat, watch: Watch, from: int)
    requires OwnRepo(w) && k < |w.workers| && w.workers[k].Holding? && StillCurrent(w.rows, w.workers[k].read)
    ensures InWindow(Next(w, Swap(k)).rows, watch, from) <= InWindow(w.rows, watch, from)
      + if InFlight(w.workers[k], watch.owners, watch.account) then 1 else 0
  {
    var read, item := w.workers[k].read, w.workers[k].item;
    var to, f := from + watch.width, DeleteIfCurrent(read);
    DeleteTrims(read);
    RewriteCountsNoMore(w.rows, f, watch.owners, watch.account, from, to);
    EventsInAppend(Rewrite(w.rows, f), Replacement(read, item, NextSeq(w.alloc, w.rows, w.high), read.id),
                   watch.owners, watch.account, from, to);
  }

  lemma StepKeepsOpenWindow(w: World, step: Step, watch: Watch, from: int)
    requires OwnRepo(w) && WindowOk(w, watch, from) && StillOpen(w, watch, from) && UnderLimit(w, step, watch)
    requires Pending(Next(w, step).workers, watch.owners, watch.account) <= watch.peak
    ensures WindowOk(Next(w, step), watch, from)
  {
    if step.Arrive? {
      ArriveKeepsWindow(w, step.item, watch, from);
    } else if step.Search? {
      if step.k < |w.workers| && w.workers[step.k].Searching? { SearchKeepsWindow(w, step.k, watch, from); }
    } else if step.Mint? {
      if step.k < |w.workers| && w.workers[step.k].Minting? { MintKeepsWindow(w, step.k, watch, from); }
    } else if step.Swap? {
      if step.k < |w.workers| && w.workers[step.k].Holding? { SwapKeepsOpenWindow(w, step.k, watch, from); }
    } else if !step.Tick? {
      TrimKeepsWindow(w, step, watch, from);
    }
  }

  lemma {:induction false} RunKeepsOwnRepo(w: World, steps: seq<Step>)
    requires OwnRepo(w)
    ensures OwnRepo(Run(w, steps)) && w.now <= Run(w, steps).now
    decreases |steps|
  {
    if steps != [] {
      StepKeepsOwnRepo(w, steps[0]);
      RunKeepsOwnRepo(Next(w, steps[0]), steps[1..]);
    }
  }

  lemma {:induction false} RunKeepsOpenWindow(w: World, steps: seq<Step>, watch: Watch, from: int)
    requires OwnRepo(w) && Watched(w, steps, watch) && WindowOk(w, watch, from)
    requires StillOpen(Run(w, steps), watch, from)
    ensures WindowOk(Run(w, steps), watch, from)
    decreases |steps|
  {
    if steps != [] {
      RunKeepsOwnRepo(w, steps);
      StepKeepsOpenWindow(w, steps[0], watch, from);
      StepKeepsOwnRepo(w, steps[0]);
      RunKeepsOpenWindow(Next(w, steps[0]), steps[1..], watch, from);
    }
  }

  // ---------------------------------------------------------------- the bound over runs

  /** What a bound on a window asks of a run: nothing while the window is open, and the condition on sweeps
      once it has closed. */
  ghost predicate Bounds(w: World, steps: seq<Step>, width: nat, from: int) {
    || (OwnRepo(w) && from + width >= Run(w, steps).now)
    || (AlbumMerge.Inv(w) && SafeRun(w, steps))
  }

  /** The number of events in any window, of those the window held none of at the start, never exceeds
      the limit plus the requests that overlapped, less one: whatever is swept as long as the window is open,
      and under the condition on sweeps ever after. */
  lemma WindowsAreBounded(w: World, steps: seq<Step>, watch: Watch, from: int)
    requires Watched(w, steps, watch) && InWindow(w.rows, watch, from) == 0
    ensures Bounds(w, steps, watch.width, from) ==> InWindow(Run(w, steps).rows, watch, from) <= Bound(watch)
  {
    if OwnRepo(w) && StillOpen(Run(w, steps), watch, from) {
      RunKeepsOpenWindow(w, steps, watch, from);
    } else if AlbumMerge.Inv(w) && SafeRun(w, steps) {
      RunKeepsWindow(w, steps, watch, from);
    }
  }

  // ---------------------------------------------------------------- the configured limits

  /** Every arrival passed `check_event_admission` in the state it found. */
  ghost predicate Admitted(w: World, steps: seq<Step>, settings: Settings, owners: Owners, standings: seq<Standing>)
    requires |standings| == |steps|
    decreases |steps|
  {
    steps != [] ==>
      && (steps[0].Arrive? && steps[0].item.repo in owners ==>
            CheckEventAdmission(settings, w.rows, owners, Some(owners[steps[0].item.repo]), standings[0],
                                steps[0].item.body, |steps[0].item.attachments|, w.now) == Allow)
      && Admitted(Next(w, steps[0]), steps[1..], settings, owners, standings[1..])
  }

  /** At most one admitted request of the account is in flight at any time. */
  ghost predicate OneAtATime(w: World, steps: seq<Step>, owners: Owners, account: string)
    decreases |steps|
  {
    && Pending(w.workers, owners, account) <= 1
    && (steps != [] ==> OneAtATime(Next(w, steps[0]), steps[1..], owners, account))
  }

  /** The account reads as free at each of its own arrivals; others may stand as they like. */
  ghost predicate FreeWhenArriving(steps: seq<Step>, owners: Owners, account: string, standings: seq<Standing>)
    requires |standings| == |steps|
  {
    forall i ::
      0 <= i < |steps| && steps[i].Arrive? && steps[i].item.repo in owners && owners[steps[i].item.repo] == account ==>
      standings[i] == Free
  }

  lemma {:induction false} AdmittedIsWatched(w: World, steps: seq<Step>, settings: Settings, standings: seq<Standing>,
                                             watch: Watch)
    requires |standings| == |steps| && Admitted(w, steps, settings, watch.owners, standings)
    requires OneAtATime(w, steps, watch.owners, watch.account) && watch.peak == 1
    requires (watch.width, watch.limit) == (MINUTE, settings.abusePerMinute)
             || (watch.width, watch.limit) == (DAY, settings.abusePerDay)
          || (FreeWhenArriving(steps, watch.owners, watch.account, standings)
              && ((watch.width, watch.limit) == (MINUTE, settings.freePerMinute)
                  || (watch.width, watch.limit) == (DAY, settings.freePerDay)))
    ensures Watched(w, steps, watch)
    decreases |steps|
  {
    if steps != [] {
      AdmittedIsWatched(Next(w, steps[0]), steps[1..], settings, standings[1..], watch);
    }
  }

  lemma PendingGrowsOnlyByArrivals(w: World, step: Step, owners: Owners, account: string)
    ensures Pending(Next(w, step).workers, owners, account) <=
      Pending(w.workers, owners, account)
        + if step.Arrive? && step.item.repo in owners && owners[step.item.repo] == account then 1 else 0
  {
    if step.Arrive? {
      PendingArrive(w.workers, Arrival(step.item), owners, account);
    } else if (step.Search? || step.Swap? || step.Mint?) && step.k < |w.workers| {
      PendingUpdate(w.workers, step.k, Next(w, step).workers[step.k], owners, account);
    }
  }

  /** A limit of zero or less admits nobody. */
  lemma {:induction false} NobodyGetsIn(w: World, steps: seq<Step>, watch: Watch)
    requires Watched(w, steps, watch) && watch.limit <= 0 && Pending(w.workers, watch.owners, watch.account) == 0
    ensures Watched(w, steps, watch.(peak := 0))
    decreases |steps|
  {
    if steps != [] {
      PendingGrowsOnlyByArrivals(w, steps[0], watch.owners, watch.account);
      NobodyGetsIn(Next(w, steps[0]), steps[1..], watch);
    }
  }

  lemma FromEmpty(w: World, steps: seq<Step>, watch: Watch, from: int)
    requires Init(w) && Watched(w, steps, watch) && watch.peak == 1
    requires SafeRun(w, steps) || StillOpen(Run(w, steps), watch, from)
    ensures InWindow(Run(w, steps).rows, watch, from) <= Positive(watch.limit)
  {
    InitInv(w);
    if watch.limit <= 0 {
      NobodyGetsIn(w, steps, watch);
      WindowsAreBounded(w, steps, watch.(peak := 0), from);
    } else {
      WindowsAreBounded(w, steps, watch, from);
    }
  }

  function Positive(limit: int): int {
    if limit > 0 then limit else 0
  }

  /** When each enqueue follows its admission before the next one is admitted, no minute and no day
      ever holds more events of an account than the abuse ceilings. While the minute or day is open that
      needs no condition on sweeps. */
  lemma CeilingsHold(w: World, steps: seq<Step>, settings: Settings, owners: Owners, account: string,
                     standings: seq<Standing>, from: int)
    requires Init(w)
    requires |standings| == |steps| && Admitted(w, steps, settings, owners, standings)
    requires OneAtATime(w, steps, owners, account)
    ensures SafeRun(w, steps) || from + MINUTE >= Run(w, steps).now ==>
      EventsIn(Run(w, steps).rows, owners, account, from, from + MINUTE) <= Positive(settings.abusePerMinute)
    ensures SafeRun(w, steps) || from + DAY >= Run(w, steps).now ==>
      EventsIn(Run(w, steps).rows, owners, account, from, from + DAY) <= Positive(settings.abusePerDay)
  {
    var minute := Watch(owners, account, MINUTE, settings.abusePerMinute, 1);
    var day := Watch(owners, account, DAY, settings.abusePerDay, 1);
    AdmittedIsWatched(w, steps, settings, standings, minute);
    AdmittedIsWatched(w, steps, settings, standings, day);
    if SafeRun(w, steps) || StillOpen(Run(w, steps), minute, from) { FromEmpty(w, steps, minute, from); }
    if SafeRun(w, steps) || StillOpen(Run(w, steps), day, from) { FromEmpty(w, steps, day, from); }
  }

  function OrOne(limit: int): int {
    if limit >= 1 then limit else 1
  }

  /** While the account reads as free, from any state of the inbox on, every minute and day that began
      without its events stays within the free limits as well; a request admitted earlier may still land. */
  lemma FreeLimitsHold(w: World, steps: seq<Step>, settings: Settings, owners: Owners, account: string,
                       standings: seq<Standing>, from: int)
    requires |standings| == |steps| && Admitted(w, steps, settings, owners, standings)
    requires OneAtATime(w, steps, owners, account)
    requires FreeWhenArriving(steps, owners, account, standings)
    ensures EventsIn(w.rows, owners, account, from, from + MINUTE) == 0 && Bounds(w, steps, MINUTE, from) ==>
      EventsIn(Run(w, steps).rows, owners, account, from, from + MINUTE) <= OrOne(settings.freePerMinute)
    ensures EventsIn(w.rows, owners, account, from, from + DAY) == 0 && Bounds(w, steps, DAY, from) ==>
      EventsIn(Run(w, steps).rows, owners, account, from, from + DAY) <= OrOne(settings.freePerDay)
  {
    var minute := Watch(owners, account, MINUTE, settings.freePerMinute, 1);
    var day := Watch(owners, account, DAY, settings.freePerDay, 1);
    AdmittedIsWatched(w, steps, settings, standings, minute);
    AdmittedIsWatched(w, steps, settings, standings, day);
    if InWindow(w.rows, minute, from) == 0 { WindowsAreBounded(w, steps, minute, from); }
    if InWindow(w.rows, day, from) == 0 { WindowsAreBounded(w, steps, day, from); }
  }
}
