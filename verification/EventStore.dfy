// The inbox service over one shared `events` table: the enqueue path with its bounded
// compare-and-swap loop, the response path and the hourly collector, step by step.
module EventStore {
  import opened Wrappers
  import opened EventTable
  import opened AlbumMerge
  import Responses

  const GC_INTERVAL := 3_600_000
  const STALE_HORIZON_DEFAULT := 48 * 3_600_000

  lemma RunCons(w: World, a: Step, rest: seq<Step>)
    ensures Run(w, [a] + rest) == Run(Next(w, a), rest)
  {
    assert ([a] + rest)[1..] == rest;
  }

  lemma {:induction false} RunAppend(w: World, before: seq<Step>, after: seq<Step>)
    ensures Run(w, before + after) == Run(Run(w, before), after)
    decreases |before|
  {
    if before == [] {
      assert [] + after == after;
    } else {
      RunAppend(Next(w, before[0]), before[1..], after);
      assert before + after == [before[0]] + (before[1..] + after);
      RunCons(w, before[0], before[1..] + after);
    }
  }

  lemma RunSnoc(w: World, steps: seq<Step>, last: Step)
    ensures Run(w, steps + [last]) == Next(Run(w, steps), last)
  {
    RunAppend(w, steps, [last]);
    RunCons(Run(w, steps), last, []);
    assert [last] == [last] + [];
  }

  /** A step of somebody else's call. */
  predicate Foreign(step: Step, k: nat) {
    (step.Search? ==> step.k != k) && (step.Swap? ==> step.k != k) && (step.Mint? ==> step.k != k)
  }

  lemma ForeignStepKeepsWorker(w: World, step: Step, k: nat)
    requires k < |w.workers| && Foreign(step, k)
    ensures k < |Next(w, step).workers| && Next(w, step).workers[k] == w.workers[k]
  {
  }

  function StepsAt(schedule: seq<seq<Step>>, i: nat): seq<Step> {
    if i < |schedule| then schedule[i] else []
  }

  // ---------------------------------------------------------------- what one call adds to a history

  /** The first `n` attempts of call `k`, each with what the others do after its SELECT and after its write. */
  ghost function Attempts(k: nat, schedule: seq<seq<Step>>, n: nat): seq<Step> {
    if n == 0 then []
    else
      Attempts(k, schedule, n - 1) + [Search(k)] + StepsAt(schedule, 2 * (n - 1)) + [Swap(k)]
        + StepsAt(schedule, 2 * (n - 1) + 1)
  }

  /** A whole merge loop: all attempts spent, or ended by a SELECT, or by the swap that landed. */
  ghost predicate MergeTrace(trace: seq<Step>, k: nat, schedule: seq<seq<Step>>, tries: nat) {
    || (tries == MERGE_MAX_ATTEMPTS && trace == Attempts(k, schedule, tries))
    || (tries < MERGE_MAX_ATTEMPTS && trace == Attempts(k, schedule, tries) + [Search(k)])
    || (tries < MERGE_MAX_ATTEMPTS
        && trace == Attempts(k, schedule, tries) + [Search(k)] + StepsAt(schedule, 2 * tries) + [Swap(k)])
  }

  /** A whole call: its arrival, for an album its merge loop, and its own insert unless that landed. */
  ghost predicate EnqueueTrace(trace: seq<Step>, item: Item, k: nat, schedule: seq<seq<Step>>, loop: seq<Step>,
                               tries: nat) {
    && (if item.album.Some? then MergeTrace(loop, k, schedule, tries) else loop == [])
    && (trace == [Arrive(item)] + loop
        || trace == [Arrive(item)] + loop + StepsAt(schedule, 2 * MERGE_MAX_ATTEMPTS) + [Mint(k)])
  }

  /** The write transactions of call `k` in a history. */
  function OwnSwaps(steps: seq<Step>, k: nat): nat {
    if steps == [] then 0 else OwnSwaps(steps[..|steps| - 1], k) + if steps[|steps| - 1] == Swap(k) then 1 else 0
  }

  lemma {:induction false} OwnSwapsAdd(a: seq<Step>, b: seq<Step>, k: nat)
    ensures OwnSwaps(a + b, k) == OwnSwaps(a, k) + OwnSwaps(b, k)
  {
    if b == [] {
      assert a + b == a;
    } else {
      assert (a + b)[..|a + b| - 1] == a + b[..|b| - 1];
      OwnSwapsAdd(a, b[..|b| - 1], k);
    }
  }

  lemma {:induction false} ForeignSwapsNone(steps: seq<Step>, k: nat)
    requires forall i :: 0 <= i < |steps| ==> Foreign(steps[i], k)
    ensures OwnSwaps(steps, k) == 0
  {
    if steps != [] { ForeignSwapsNone(steps[..|steps| - 1], k); }
  }

  ghost predicate AllForeign(schedule: seq<seq<Step>>, k: nat) {
    forall i, j :: 0 <= i < |schedule| && 0 <= j < |schedule[i]| ==> Foreign(schedule[i][j], k)
  }

  lemma TurnHasNoSwap(schedule: seq<seq<Step>>, k: nat, i: nat)
    requires AllForeign(schedule, k)
    ensures OwnSwaps(StepsAt(schedule, i), k) == 0
  {
    ForeignSwapsNone(StepsAt(schedule, i), k);
  }

  lemma SwapCountsOne(k: nat)
    ensures OwnSwaps([Swap(k)], k) == 1 && OwnSwaps([Search(k)], k) == 0 && OwnSwaps([Mint(k)], k) == 0
    ensures forall item :: OwnSwaps([Arrive(item)], k) == 0
  {
    assert [Swap(k)][..0] == [] && [Search(k)][..0] == [] && [Mint(k)][..0] == [];
    forall item ensures OwnSwaps([Arrive(item)], k) == 0 { assert [Arrive(item)][..0] == []; }
  }

  lemma SwapAfterTurn(before: seq<Step>, turn: seq<Step>, k: nat)
    requires OwnSwaps(turn, k) == 0
    ensures OwnSwaps(before + [Search(k)] + turn + [Swap(k)], k) == OwnSwaps(before, k) + 1
  {
    SwapCountsOne(k);
    OwnSwapsAdd(before, [Search(k)], k);
    OwnSwapsAdd(before + [Search(k)], turn, k);
    OwnSwapsAdd(before + [Search(k)] + turn, [Swap(k)], k);
  }

  lemma {:induction false} AttemptsSwap(k: nat, schedule: seq<seq<Step>>, n: nat)
    requires AllForeign(schedule, k)
    ensures OwnSwaps(Attempts(k, schedule, n), k) == n
  {
    if n > 0 {
      AttemptsSwap(k, schedule, n - 1);
      var before, first, second :=
        Attempts(k, schedule, n - 1), StepsAt(schedule, 2 * (n - 1)), StepsAt(schedule, 2 * (n - 1) + 1);
      TurnHasNoSwap(schedule, k, 2 * (n - 1));
      TurnHasNoSwap(schedule, k, 2 * (n - 1) + 1);
      OneAttemptSwaps(before, first, second, k);
      AttemptsUnfold(k, schedule, n);
    }
  }

  lemma AttemptsUnfold(k: nat, schedule: seq<seq<Step>>, n: nat)
    requires n > 0
    ensures Attempts(k, schedule, n) == Attempts(k, schedule, n - 1) + [Search(k)] + StepsAt(schedule, 2 * (n - 1))
      + [Swap(k)] + StepsAt(schedule, 2 * (n - 1) + 1)
  {
  }

  lemma OneAttemptSwaps(before: seq<Step>, first: seq<Step>, second: seq<Step>, k: nat)
    requires OwnSwaps(first, k) == 0 && OwnSwaps(second, k) == 0
    ensures OwnSwaps(before + [Search(k)] + first + [Swap(k)] + second, k) == OwnSwaps(before, k) + 1
  {
    SwapAfterTurn(before, first, k);
    OwnSwapsAdd(before + [Search(k)] + first + [Swap(k)], second, k);
  }

  /** A call writes at most twelve times before it gives up on merging. */
  lemma AtMostTwelveSwaps(trace: seq<Step>, item: Item, k: nat, schedule: seq<seq<Step>>, loop: seq<Step>, tries: nat)
    requires AllForeign(schedule, k) && EnqueueTrace(trace, item, k, schedule, loop, tries)
    ensures OwnSwaps(trace, k) <= MERGE_MAX_ATTEMPTS
  {
    SwapCountsOne(k);
    AttemptsSwap(k, schedule, tries);
    TurnHasNoSwap(schedule, k, 2 * tries);
    TurnHasNoSwap(schedule, k, 2 * MERGE_MAX_ATTEMPTS);
    SwapAfterTurn(Attempts(k, schedule, tries), StepsAt(schedule, 2 * tries), k);
    OwnSwapsAdd(Attempts(k, schedule, tries), [Search(k)], k);
    OwnSwapsAdd([Arrive(item)], loop, k);
    OwnSwapsAdd([Arrive(item)] + loop, StepsAt(schedule, 2 * MERGE_MAX_ATTEMPTS), k);
    OwnSwapsAdd([Arrive(item)] + loop + StepsAt(schedule, 2 * MERGE_MAX_ATTEMPTS), [Mint(k)], k);
  }

  function RenameAt(at: nat, id: EventId): Row -> Option<Row> {
    (r: Row) => if r.seqNo == at then Some(r.(id := id)) else Some(r)
  }

  function PositionOf(rows: seq<Row>, id: EventId, repo: string): (at: Option<nat>)
    ensures at.Some? ==> at.value < |rows| && rows[at.value].id == id && rows[at.value].repo == repo
    ensures at == None ==> forall r :: r in rows ==> !(r.id == id && r.repo == repo)
  {
    if rows == [] then None
    else if rows[|rows| - 1].id == id && rows[|rows| - 1].repo == repo then Some(|rows| - 1)
    else
      assert rows == rows[..|rows| - 1] + [rows[|rows| - 1]];
      PositionOf(rows[..|rows| - 1], id, repo)
  }

  /** The count `_expire_stale_queued` returns. */
  function StaleCount(rows: seq<Row>, now: int, horizon: int): nat {
    if rows == [] then 0
    else
      StaleCount(rows[..|rows| - 1], now, horizon) +
      (if rows[|rows| - 1].status == Queued && rows[|rows| - 1].createdAt < now - horizon then 1 else 0)
  }

  lemma NextKeepsBackend(w: World, step: Step)
    ensures Next(w, step).alloc == w.alloc
  {
  }

  /** The placeholder row differs in content from the row that was read, so the guarded delete never takes it. */
  lemma ParkedIsNotRead(before: seq<Row>, read: Row, item: Item, seqNo: nat, id: EventId)
    requires !AddsNothing(read, item)
    ensures var parked := Replacement(read, item, seqNo, id);
            Rewrite(before + [parked], DeleteIfCurrent(read)) == Rewrite(before, DeleteIfCurrent(read)) + [parked]
  {
    var parked := Replacement(read, item, seqNo, id);
    assert |read.attachments + item.attachments| == |read.attachments| + |item.attachments|;
    RewriteAppend(before, parked, DeleteIfCurrent(read));
  }

  /** The row count of the guarded delete: one when the row is still current, else none. */
  lemma {:induction false} RowCount(rows: seq<Row>, read: Row)
    requires Ascending(rows)
    ensures |rows| - |Rewrite(rows, DeleteIfCurrent(read))| == if StillCurrent(rows, read) then 1 else 0
  {
    if rows != [] {
      var n := |rows| - 1;
      var init := rows[..n];
      RowCount(init, read);
      assert rows[n] in rows;
      if SwapMatches(rows[n], read) {
        forall r | r in init ensures !SwapMatches(r, read) {
          var i :| 0 <= i < n && rows[i] == r;
        }
      } else if StillCurrent(rows, read) {
        var r :| r in rows && SwapMatches(r, read);
        assert r in init;
      } else {
        forall r | r in init ensures !SwapMatches(r, read) { assert r in rows; }
      }
    }
  }

  lemma AttemptAppends(trace: seq<Step>, k: nat, first: seq<Step>, second: seq<Step>)
    ensures trace + ([Search(k)] + first + [Swap(k)]) == trace + [Search(k)] + first + [Swap(k)]
    ensures trace + ([Search(k)] + first + [Swap(k)] + second) == trace + [Search(k)] + first + [Swap(k)] + second
  {
  }

  lemma AppendTwice(a: seq<Step>, b: seq<Step>, c: seq<Step>)
    ensures a + (b + c) == a + b + c
  {
  }

  lemma RenameOnlyParked(others: seq<Row>, parked: Row, id: EventId)
    requires forall r :: r in others ==> r.seqNo < parked.seqNo
    ensures Rewrite(others + [parked], RenameAt(parked.seqNo, id)) == others + [parked.(id := id)]
  {
    RewriteAppend(others, parked, RenameAt(parked.seqNo, id));
    RewriteIdentity(others, RenameAt(parked.seqNo, id));
  }

  /** The expiry loop after i rows: the table, the pointers taken, the rows closed. */
  ghost function ExpiryLoop(rows: seq<Row>, i: nat, now: int, horizon: int): (loop: (seq<Row>, multiset<Pointer>, nat))
    requires i <= |rows|
    ensures |loop.0| == |rows| && forall j :: i <= j < |rows| ==> loop.0[j] == rows[j]
  {
    if i == 0 then (rows, multiset{}, 0)
    else
      var prior := ExpiryLoop(rows, i - 1, now, horizon);
      var r := rows[i - 1];
      var to := ExpireRow(r, now, horizon);
      (prior.0[i - 1 := to], prior.1 + (multiset(r.attachments) - multiset(to.attachments)),
       prior.2 + if r.status == Queued && r.createdAt < now - horizon then 1 else 0)
  }

  lemma ExpiryLoopStep(rows: seq<Row>, i: nat, now: int, horizon: int)
    requires i < |rows|
    ensures var prior, next := ExpiryLoop(rows, i, now, horizon), ExpiryLoop(rows, i + 1, now, horizon);
      && prior.0[i] == rows[i] && next.0 == prior.0[i := ExpireRow(rows[i], now, horizon)]
      && next.1 == prior.1 + (multiset(rows[i].attachments) - multiset(ExpireRow(rows[i], now, horizon).attachments))
      && next.2 == prior.2 + if rows[i].status == Queued && rows[i].createdAt < now - horizon then 1 else 0
  {
  }

  lemma ExpireNext(rows: seq<Row>, i: nat, now: int, horizon: int)
    requires i < |rows|
    ensures var f := ExpireStale(now, horizon);
            var r := rows[i];
            && Rewrite(rows[..i + 1], f) == Rewrite(rows[..i], f) + [ExpireRow(r, now, horizon)]
            && Shed(rows[..i + 1], f) ==
              Shed(rows[..i], f) + (multiset(r.attachments) - multiset(ExpireRow(r, now, horizon).attachments))
            && StaleCount(rows[..i + 1], now, horizon) ==
               StaleCount(rows[..i], now, horizon)
                 + (if r.status == Queued && r.createdAt < now - horizon then 1 else 0)
  {
    assert rows[..i + 1][..i] == rows[..i];
  }

  lemma UpdateAcross(done: seq<Row>, rest: seq<Row>, to: Row)
    requires rest != []
    ensures (done + rest)[|done| := to] == (done + [to]) + rest[1..]
  {
  }

  lemma {:induction false} ExpiryLoopRows(rows: seq<Row>, i: nat, now: int, horizon: int)
    requires i <= |rows|
    ensures ExpiryLoop(rows, i, now, horizon).0 == Rewrite(rows[..i], ExpireStale(now, horizon)) + rows[i..]
    ensures |Rewrite(rows[..i], ExpireStale(now, horizon))| == i
  {
    if i > 0 {
      var done, to := Rewrite(rows[..i - 1], ExpireStale(now, horizon)), ExpireRow(rows[i - 1], now, horizon);
      ExpiryLoopRows(rows, i - 1, now, horizon);
      ExpiryLoopStep(rows, i - 1, now, horizon);
      ExpireNext(rows, i - 1, now, horizon);
      UpdateAcross(done, rows[i - 1..], to);
      assert rows[i - 1..][1..] == rows[i..];
    }
  }

  lemma {:induction false} ExpiryLoopCounts(rows: seq<Row>, i: nat, now: int, horizon: int)
    requires i <= |rows|
    ensures ExpiryLoop(rows, i, now, horizon).1 == Shed(rows[..i], ExpireStale(now, horizon))
    ensures ExpiryLoop(rows, i, now, horizon).2 == StaleCount(rows[..i], now, horizon)
  {
    if i > 0 {
      ExpiryLoopCounts(rows, i - 1, now, horizon);
      ExpireNext(rows, i - 1, now, horizon);
    }
  }

  lemma ExpiryLoopEnds(rows: seq<Row>, now: int, horizon: int)
    ensures var loop := ExpiryLoop(rows, |rows|, now, horizon);
            && loop.0 == Rewrite(rows, ExpireStale(now, horizon))
            && loop.1 == Shed(rows, ExpireStale(now, horizon))
            && loop.2 == StaleCount(rows, now, horizon)
  {
    ExpiryLoopRows(rows, |rows|, now, horizon);
    ExpiryLoopCounts(rows, |rows|, now, horizon);
    assert rows[..|rows|] == rows;
  }

  function GcSteps(staleHorizon: Option<int>): seq<Step> {
    var horizon := staleHorizon.GetOr(STALE_HORIZON_DEFAULT);
    if horizon > 0 then [Expire(horizon), Sweep] else [Sweep]
  }

  lemma RunOne(w: World, step: Step)
    ensures Run(w, [step]) == Next(w, step)
  {
    RunCons(w, step, []);
    assert [step] + [] == [step];
  }

  /** What one collection does to the table. */
  function Collected(w: World, staleHorizon: Option<int>): World {
    var horizon := staleHorizon.GetOr(STALE_HORIZON_DEFAULT);
    var expired := if horizon > 0 then Rewritten(w, ExpireStale(w.now, horizon)) else w;
    Swept(expired)
  }

  lemma RunTwo(w: World, a: Step, b: Step)
    ensures Run(w, [a, b]) == Next(Next(w, a), b)
  {
    RunCons(w, a, [b]);
    assert [a] + [b] == [a, b];
    RunOne(Next(w, a), b);
  }

  lemma ExpireStep(w: World, horizon: nat)
    requires horizon > 0
    ensures Next(w, Expire(horizon)) == Rewritten(w, ExpireStale(w.now, horizon))
  {
  }

  lemma SweepStep(w: World)
    ensures Next(w, Sweep) == Swept(w)
  {
  }

  /** A collection is an expiry and a sweep of the machine. */
  lemma CollectionIsRun(w: World, staleHorizon: Option<int>)
    ensures Collected(w, staleHorizon) == Run(w, GcSteps(staleHorizon))
  {
    var horizon := staleHorizon.GetOr(STALE_HORIZON_DEFAULT);
    if horizon > 0 {
      var expired := Rewritten(w, ExpireStale(w.now, horizon));
      RunTwo(w, Expire(horizon), Sweep);
      ExpireStep(w, horizon);
      SweepStep(expired);
    } else {
      RunOne(w, Sweep);
      SweepStep(w);
    }
  }

  // ---------------------------------------------------------------- a response is a run of the machine

  /** The steps one post amounts to, on the row that holds the event. */
  function PostSteps(r: Row, post: Responses.Post): seq<Step> {
    var adopt := AdoptionSteps(r, post);
    var outcome := Responses.Answer(r, post);
    var close :=
      if r.status == Queued && outcome.row.status == Responded then [Close(r.seqNo, outcome.row.response)] else [];
    var continued :=
      if r.status == Responded && outcome.sent.Some? then [Continue(r.seqNo, Sha(post.body), |post.body|)] else [];
    adopt + close + continued
  }

  lemma AdoptionRun(w: World, at: nat, post: Responses.Post)
    requires Ordered(w) && at < |w.rows|
    ensures var r := w.rows[at];
            var adopted := Responses.Adopt(r, post.conversation);
            Run(w, AdoptionSteps(r, post)) == w.(rows := w.rows[at := adopted])
  {
    var r := w.rows[at];
    var adopted := Responses.Adopt(r, post.conversation);
    if adopted != r {
      var step := AdoptConversation(r.seqNo, post.conversation.value);
      RewriteOne(w.rows, AdoptConversationAt(r.seqNo, post.conversation.value), at, adopted);
      RunSnoc(w, [], step);
      assert [] + [step] == [step];
    } else {
      assert w.rows[at := adopted] == w.rows;
    }
  }

  function AdoptionSteps(r: Row, post: Responses.Post): seq<Step> {
    if Responses.Adopt(r, post.conversation) != r then [AdoptConversation(r.seqNo, post.conversation.value)] else []
  }

  lemma OneStepRun(w: World, before: seq<Step>, mid: World, step: Step, f: Row -> Option<Row>, at: nat, to: Row)
    requires mid == Run(w, before) && Next(mid, step) == Rewritten(mid, f)
    requires Ascending(mid.rows) && at < |mid.rows| && f(mid.rows[at]) == Some(to)
    requires forall r: Row :: r.seqNo != mid.rows[at].seqNo ==> f(r) == Some(r)
    ensures Run(w, before + [step]) == Put(mid, at, to)
  {
    RewriteOne(mid.rows, f, at, to);
    RunSnoc(w, before, step);
  }

  /** The three shapes a post can leave the row in. */
  lemma AnswerShapes(r: Row, post: Responses.Post)
    ensures var adopted := Responses.Adopt(r, post.conversation);
            var outcome := Responses.Answer(r, post);
            && adopted.seqNo == r.seqNo && adopted.attachments == r.attachments
            && if r.status == Queued && outcome.row.status == Responded then
                 PostSteps(r, post) == AdoptionSteps(r, post) + [Close(r.seqNo, outcome.row.response)]
                 && outcome.row == Closed(adopted, outcome.row.response)
               else if r.status == Responded && outcome.sent.Some? then
                 PostSteps(r, post) == AdoptionSteps(r, post) + [Continue(r.seqNo, Sha(post.body), |post.body|)]
                 && outcome.row ==
                   adopted.(response := adopted.response.(sha := Some(Sha(post.body)), len := Some(|post.body|)))
               else
                 PostSteps(r, post) == AdoptionSteps(r, post) && outcome.row == adopted
  {
    assert AdoptionSteps(r, post) + [] + [] == AdoptionSteps(r, post);
  }

  /** The row at a position, replaced, with what that takes off the table. */
  function Put(w: World, at: nat, to: Row): World
    requires at < |w.rows|
  {
    w.(rows := w.rows[at := to], dropped := w.dropped + (multiset(w.rows[at].attachments) - multiset(to.attachments)))
  }

  lemma AdoptedKeepsOrder(w: World, at: nat, adopted: Row)
    requires Ascending(w.rows) && at < |w.rows| && adopted.seqNo == w.rows[at].seqNo
    ensures Ascending(w.rows[at := adopted])
  {
    var rows := w.rows[at := adopted];
    forall i, j | 0 <= i < j < |rows| ensures rows[i].seqNo < rows[j].seqNo {
      assert w.rows[i].seqNo < w.rows[j].seqNo;
    }
  }

  lemma PutTwice(w: World, at: nat, adopted: Row, to: Row)
    requires at < |w.rows| && adopted.attachments == w.rows[at].attachments
    ensures Put(w.(rows := w.rows[at := adopted]), at, to) == Put(w, at, to)
  {
    assert w.rows[at := adopted][at := to] == w.rows[at := to];
  }

  lemma ResponseCloses(w: World, at: nat, post: Responses.Post)
    requires Ordered(w) && at < |w.rows|
    requires w.rows[at].status == Queued && Responses.Answer(w.rows[at], post).row.status == Responded
    ensures Run(w, PostSteps(w.rows[at], post)) == Put(w, at, Responses.Answer(w.rows[at], post).row)
  {
    var r := w.rows[at];
    var adopted := Responses.Adopt(r, post.conversation);
    var to := Responses.Answer(r, post).row;
    AdoptionRun(w, at, post);
    AnswerShapes(r, post);
    AdoptedKeepsOrder(w, at, adopted);
    CloseRun(w, AdoptionSteps(r, post), w.(rows := w.rows[at := adopted]), at, to.response);
    PutTwice(w, at, adopted, to);
  }

  lemma CloseRun(w: World, before: seq<Step>, mid: World, at: nat, response: Response)
    requires mid == Run(w, before) && Ascending(mid.rows) && at < |mid.rows|
    ensures var r := mid.rows[at];
            Run(w, before + [Close(r.seqNo, response)]) == Put(mid, at, Closed(r, response))
  {
    var r := mid.rows[at];
    OneStepRun(w, before, mid, Close(r.seqNo, response), CloseAt(r.seqNo, response), at, Closed(r, response));
  }

  lemma ContinueRun(w: World, before: seq<Step>, mid: World, at: nat, sha: Sha, len: nat)
    requires mid == Run(w, before) && Ascending(mid.rows) && at < |mid.rows|
    ensures var r := mid.rows[at];
            Run(w, before + [Continue(r.seqNo, sha, len)]) ==
              Put(mid, at, r.(response := r.response.(sha := Some(sha), len := Some(len))))
  {
    var r := mid.rows[at];
    OneStepRun(w, before, mid, Continue(r.seqNo, sha, len), ContinueAt(r.seqNo, sha, len), at,
               r.(response := r.response.(sha := Some(sha), len := Some(len))));
  }

  lemma ResponseContinues(w: World, at: nat, post: Responses.Post)
    requires Ordered(w) && at < |w.rows|
    requires w.rows[at].status == Responded && Responses.Answer(w.rows[at], post).sent.Some?
    ensures Run(w, PostSteps(w.rows[at], post)) == Put(w, at, Responses.Answer(w.rows[at], post).row)
  {
    var r := w.rows[at];
    var adopted := Responses.Adopt(r, post.conversation);
    AdoptionRun(w, at, post);
    AnswerShapes(r, post);
    AdoptedKeepsOrder(w, at, adopted);
    ContinueRun(w, AdoptionSteps(r, post), w.(rows := w.rows[at := adopted]), at, Sha(post.body), |post.body|);
    PutTwice(w, at, adopted, Responses.Answer(r, post).row);
  }

  /** Posting a response takes the table where those steps take it, so it keeps every invariant the machine keeps. */
  lemma ResponseIsRun(w: World, at: nat, post: Responses.Post)
    requires Ordered(w) && at < |w.rows|
    ensures Run(w, PostSteps(w.rows[at], post)) == Put(w, at, Responses.Answer(w.rows[at], post).row)
  {
    var outcome := Responses.Answer(w.rows[at], post);
    if w.rows[at].status == Queued && outcome.row.status == Responded {
      ResponseCloses(w, at, post);
    } else if w.rows[at].status == Responded && outcome.sent.Some? {
      ResponseContinues(w, at, post);
    } else {
      AnswerShapes(w.rows[at], post);
      AdoptionRun(w, at, post);
    }
  }

  /** The rest of an answer sees the adopted row. */
  lemma AdoptionFirst(r: Row, post: Responses.Post)
    ensures var adopted := Responses.Adopt(r, post.conversation);
      adopted.attachments == r.attachments
        && Responses.Answer(r, post) == Responses.Answer(adopted, post.(conversation := None))
  {
  }

  lemma UpdateTwice(rows: seq<Row>, at: nat, a: Row, b: Row)
    requires at < |rows|
    ensures rows[at := a][at] == a && rows[at := a][at := b] == rows[at := b]
  {
  }

  lemma NotedAnswer(r: Row, post: Responses.Post)
    requires post.status == RESPONSE_STATUS_NOTED && post.conversation == None
    ensures Responses.Answer(r, post) == Responses.Outcome(Responses.CloseNoted(r, post.at), None, false)
  {
  }

  datatype Recorded = NotFound | DeliveryError | Acknowledged(row: Row)

  class Store {
    const alloc: Allocator
    var rows: seq<Row>
    var high: nat
    var minted: nat
    var clock: int
    var gcAt: Option<int>
    var sent: seq<(EventId, string)>
    // The other calls in flight, and what closes and sweeps have taken off the table.
    var workers: seq<Worker>
    var dropped: multiset<Pointer>

    function Snapshot(): World
      reads this
    {
      World(alloc, rows, high, minted, clock, workers, dropped)
    }

    constructor (alloc: Allocator, clock: int)
      ensures Init(Snapshot()) && this.alloc == alloc && this.clock == clock
      ensures gcAt == None && sent == []
    {
      this.alloc := alloc;
      this.clock := clock;
      rows, high, minted, gcAt, sent, workers, dropped := [], 0, 0, None, [], [], multiset{};
    }

    // -------------------------------------------------------------- enqueue

    /** `_find_open_media_group`: newest candidate first, the album and chat tested on the decoded metadata. */
    method FindOpenMediaGroup(item: Item) returns (found: Option<Row>)
      requires item.album.Some?
      ensures found == OpenAlbum(rows, item, clock)
    {
      var cutoff := clock - MERGE_WINDOW;
      var i := |rows|;
      assert rows[..i] == rows;
      while i > 0
        invariant 0 <= i <= |rows|
        invariant OpenAlbum(rows[..i], item, clock) == OpenAlbum(rows, item, clock)
      {
        i := i - 1;
        var event := rows[i];
        assert rows[..i + 1][..i] == rows[..i];
        if event.repo == item.repo && event.status == Queued && event.source == TELEGRAM && event.createdAt >= cutoff {
          if event.group == item.album && (item.chat == None || event.chat == item.chat) {
            return Some(event);
          }
        }
      }
      return None;
    }

    /** One write transaction: insert under a placeholder, delete the row that was read if it is still current, rename,
        commit. */
    method SwapTransaction(read: Row, item: Item) returns (landed: bool)
      requires Ordered(Snapshot()) && !AddsNothing(read, item)
      modifies this`rows, this`high, this`minted
      ensures landed <==> StillCurrent(old(rows), read)
      ensures rows == if landed then
                        Rewrite(old(rows), DeleteIfCurrent(read)) +
                        [Replacement(read, item, old(NextSeq(alloc, rows, high)), read.id)]
                      else old(rows)
      ensures high == if landed || alloc.Sequence? then old(NextSeq(alloc, rows, high)) else old(high)
      ensures minted == old(minted) + 1
    {
      var before := rows;
      var seqNo := NextSeq(alloc, rows, high);
      var parked := Replacement(read, item, seqNo, Placeholder(minted));
      minted := minted + 1;
      if alloc.Sequence? { high := seqNo; }
      // Flush: the replacement takes its seq while the original still holds the table's maximum.
      rows := rows + [parked];
      var flushed := |rows|;
      rows := Rewrite(rows, DeleteIfCurrent(read));
      ParkedIsNotRead(before, read, item, seqNo, parked.id);
      RowCount(before, read);
      if flushed - |rows| != 1 {
        rows := before;
        return false;
      }
      rows := Rewrite(rows, RenameAt(seqNo, read.id));
      RenameOnlyParked(Rewrite(before, DeleteIfCurrent(read)), parked, read.id) by {
        NextSeqIsBehind(old(Snapshot()));
        forall r | r in Rewrite(before, DeleteIfCurrent(read)) ensures r.seqNo < seqNo {
          RewriteOrigin(before, DeleteIfCurrent(read), r);
        }
      }
      high := seqNo;
      return true;
    }

    /** A step of somebody else's call. */
    method Take(step: Step, ghost k: nat)
      requires Ordered(Snapshot()) && Foreign(step, k)
      modifies this`rows, this`high, this`minted, this`clock, this`workers, this`dropped
      ensures Snapshot() == Next(old(Snapshot()), step) && Ordered(Snapshot())
      ensures k < old(|workers|) ==> k < |workers| && workers[k] == old(workers[k])
    {
      var v := Next(Snapshot(), step);
      OrderedStep(Snapshot(), step);
      NextKeepsBackend(Snapshot(), step);
      if k < |workers| { ForeignStepKeepsWorker(Snapshot(), step, k); }
      rows, high, minted, clock, workers, dropped := v.rows, v.high, v.minted, v.now, v.workers, v.dropped;
    }

    /** What other calls do between two statements of this one. */
    method Interfere(steps: seq<Step>, ghost k: nat)
      requires Ordered(Snapshot()) && k < |workers|
      requires forall step :: step in steps ==> Foreign(step, k)
      modifies this`rows, this`high, this`minted, this`clock, this`workers, this`dropped
      ensures Snapshot() == Run(old(Snapshot()), steps) && Ordered(Snapshot())
      ensures k < |workers| && workers[k] == old(workers[k])
    {
      ghost var start := Snapshot();
      var i := 0;
      while i < |steps|
        invariant 0 <= i <= |steps|
        invariant Snapshot() == Run(start, steps[..i]) && Ordered(Snapshot())
        invariant k < |workers| && workers[k] == old(workers[k])
      {
        RunSnoc(start, steps[..i], steps[i]);
        assert steps[..i + 1] == steps[..i] + [steps[i]];
        Take(steps[i], k);
        i := i + 1;
      }
      assert steps[..i] == steps;
    }

    /** The plain insert of a new event. */
    method MintEvent(item: Item) returns (id: EventId)
      modifies this`rows, this`high, this`minted
      ensures id == Minted(old(minted))
      ensures rows == old(rows) + [FreshRow(item, old(NextSeq(alloc, rows, high)), id, clock)]
      ensures high == old(NextSeq(alloc, rows, high)) && minted == old(minted) + 1
    {
      id := Minted(minted);
      minted := minted + 1;
      high := NextSeq(alloc, rows, high);
      var group := item.group;
      if item.album.Some? { group := item.album; }
      rows := rows + [Row(high, id, item.repo, item.source, group, item.chat, Some(item.body), item.attachments,
                          Queued, clock, UNANSWERED, None)];
    }

    /** The SELECT of one attempt. */
    method SearchStep(item: Item, k: nat, attempt: nat) returns (found: Option<Row>)
      requires k < |workers| && workers[k] == Searching(item, attempt) && item.album.Some?
      modifies this`workers
      ensures found == OpenAlbum(rows, item, clock)
      ensures Snapshot() == Next(old(Snapshot()), Search(k)) && k < |workers|
      ensures found == None ==> workers[k] == Minting(item)
      ensures found.Some? ==> workers[k] == if AddsNothing(found.value, item) then Landed(item, found.value.id)
                                            else Holding(item, attempt, found.value)
    {
      found := FindOpenMediaGroup(item);
      workers := workers[k := AfterSearch(Snapshot(), item, attempt)];
    }

    /** The write transaction of one attempt. */
    method SwapStep(item: Item, k: nat, attempt: nat, read: Row) returns (landed: bool)
      requires k < |workers| && workers[k] == Holding(item, attempt, read)
      requires Ordered(Snapshot()) && !AddsNothing(read, item)
      modifies this`rows, this`high, this`minted, this`workers
      ensures Snapshot() == Next(old(Snapshot()), Swap(k)) && Ordered(Snapshot())
      ensures k < |workers| && workers[k] == if landed then Landed(item, read.id) else Retry(item, attempt)
    {
      OrderedSwap(Snapshot(), k, item, attempt, read);
      landed := SwapTransaction(read, item);
      workers := workers[k := if landed then Landed(item, read.id) else Retry(item, attempt)];
    }

    /** One attempt: the SELECT, what others do, the write, what others do. `done` unless it has to be repeated. */
    method TryToMerge(item: Item, k: nat, attempt: nat, first: seq<Step>, second: seq<Step>)
      returns (done: bool, merged: Option<EventId>, ghost steps: seq<Step>)
      requires Ordered(Snapshot()) && item.album.Some?
      requires k < |workers| && workers[k] == Searching(item, attempt)
      requires forall step :: step in first || step in second ==> Foreign(step, k)
      modifies this`rows, this`high, this`minted, this`clock, this`workers, this`dropped
      ensures Snapshot() == Run(old(Snapshot()), steps) && Ordered(Snapshot()) && k < |workers|
      ensures done ==> workers[k] == if merged.Some? then Landed(item, merged.value) else Minting(item)
      ensures done ==> steps == [Search(k)] || steps == [Search(k)] + first + [Swap(k)]
      ensures !done ==>
        workers[k] == Retry(item, attempt) && merged == None && steps == [Search(k)] + first + [Swap(k)] + second
    {
      ghost var start := Snapshot();
      var found := SearchStep(item, k, attempt);
      RunSnoc(start, [], Search(k));
      steps := [Search(k)];
      assert [] + steps == steps;
      if found == None { return true, None, steps; }
      var read := found.value;
      if AddsNothing(read, item) { return true, Some(read.id), steps; }
      Interfere(first, k);
      RunAppend(start, steps, first);
      steps := steps + first;
      var landed := SwapStep(item, k, attempt, read);
      RunSnoc(start, steps, Swap(k));
      steps := steps + [Swap(k)];
      if landed { return true, Some(read.id), steps; }
      Interfere(second, k);
      RunAppend(start, steps, second);
      return false, None, steps + second;
    }

    /** `_merge_into_open_media_group`: a bounded compare-and-swap loop; None once nothing is open or the attempts are
        spent. `schedule` is what other calls do between this one's statements, `trace` the interleaving that
        resulted: this call's own statements and the schedule's, nothing else. */
    method MergeIntoOpenMediaGroup(item: Item, k: nat, schedule: seq<seq<Step>>)
      returns (merged: Option<EventId>, ghost trace: seq<Step>, ghost tries: nat)
      requires Ordered(Snapshot()) && item.album.Some?
      requires k < |workers| && workers[k] == Searching(item, 0)
      requires AllForeign(schedule, k)
      modifies this`rows, this`high, this`minted, this`clock, this`workers, this`dropped
      ensures Snapshot() == Run(old(Snapshot()), trace) && Ordered(Snapshot())
      ensures MergeTrace(trace, k, schedule, tries)
      ensures k < |workers| && workers[k] == if merged.Some? then Landed(item, merged.value) else Minting(item)
    {
      ghost var start := Snapshot();
      trace, tries := [], 0;
      var attempt := 0;
      while attempt < MERGE_MAX_ATTEMPTS
        invariant 0 <= attempt <= MERGE_MAX_ATTEMPTS && tries == attempt && trace == Attempts(k, schedule, tries)
        invariant Snapshot() == Run(start, trace) && Ordered(Snapshot())
        invariant k < |workers|
        invariant workers[k] == if attempt < MERGE_MAX_ATTEMPTS then Searching(item, attempt) else Minting(item)
      {
        var done: bool;
        done, merged, trace := NextAttempt(item, k, attempt, schedule, start, trace);
        if done { return; }
        attempt, tries := attempt + 1, tries + 1;
      }
      return None, trace, tries;
    }

    /** One turn of the loop, and what it adds to the run. */
    method NextAttempt(item: Item, k: nat, attempt: nat, schedule: seq<seq<Step>>, ghost start: World,
                       ghost before: seq<Step>)
      returns (done: bool, merged: Option<EventId>, ghost trace: seq<Step>)
      requires Snapshot() == Run(start, before) && Ordered(Snapshot()) && item.album.Some? && AllForeign(schedule, k)
      requires attempt < MERGE_MAX_ATTEMPTS && before == Attempts(k, schedule, attempt)
      requires k < |workers| && workers[k] == Searching(item, attempt)
      modifies this`rows, this`high, this`minted, this`clock, this`workers, this`dropped
      ensures Snapshot() == Run(start, trace) && Ordered(Snapshot()) && k < |workers|
      ensures done ==> MergeTrace(trace, k, schedule, attempt)
      ensures done ==> workers[k] == if merged.Some? then Landed(item, merged.value) else Minting(item)
      ensures !done ==> merged == None && trace == Attempts(k, schedule, attempt + 1)
      ensures !done ==> workers[k] == Retry(item, attempt)
    {
      ghost var steps: seq<Step>;
      ghost var first, second := StepsAt(schedule, 2 * attempt), StepsAt(schedule, 2 * attempt + 1);
      done, merged, steps :=
        TryToMerge(item, k, attempt, StepsAt(schedule, 2 * attempt), StepsAt(schedule, 2 * attempt + 1));
      RunAppend(start, before, steps);
      AttemptAppends(before, k, first, second);
      trace := before + steps;
    }

    /** `enqueue`: fold into the open album, or mint a new event. Its effect is a run of the interleaved machine
        in which this call lands exactly once. */
    method Enqueue(item: Item, schedule: seq<seq<Step>>)
      returns (id: EventId, ghost trace: seq<Step>, ghost loop: seq<Step>, ghost tries: nat)
      requires Ordered(Snapshot()) && AllForeign(schedule, |workers|)
      modifies this`rows, this`high, this`minted, this`clock, this`workers, this`dropped
      ensures Snapshot() == Run(old(Snapshot()), trace) && Ordered(Snapshot())
      ensures old(|workers|) < |workers| && workers[old(|workers|)] == Landed(item, id)
      ensures EnqueueTrace(trace, item, old(|workers|), schedule, loop, tries)
      ensures OwnSwaps(trace, old(|workers|)) <= MERGE_MAX_ATTEMPTS
    {
      var k := |workers|;
      loop, tries := [], 0;
      ghost var start := Snapshot();
      trace := [Arrive(item)];
      RunSnoc(start, [], Arrive(item));
      assert [] + trace == trace;
      workers := workers + [Arrival(item)];
      if item.album.Some? {
        var merged: Option<EventId>;
        merged, loop, tries := MergeIntoOpenMediaGroup(item, k, schedule);
        RunAppend(start, trace, loop);
        trace := trace + loop;
        if merged.Some? {
          AtMostTwelveSwaps(trace, item, k, schedule, loop, tries);
          return merged.value, trace, loop, tries;
        }
      } else {
        assert trace == trace + loop;
      }
      ghost var rest: seq<Step>;
      id, rest := MintLast(item, k, StepsAt(schedule, 2 * MERGE_MAX_ATTEMPTS));
      RunAppend(start, trace, rest);
      AppendTwice(trace, StepsAt(schedule, 2 * MERGE_MAX_ATTEMPTS), [Mint(k)]);
      trace := trace + rest;
      AtMostTwelveSwaps(trace, item, k, schedule, loop, tries);
    }

    /** The insert of an event of its own, after the others have moved once more. */
    method MintLast(item: Item, k: nat, between: seq<Step>) returns (id: EventId, ghost rest: seq<Step>)
      requires Ordered(Snapshot()) && k < |workers| && workers[k] == Minting(item)
      requires forall step :: step in between ==> Foreign(step, k)
      modifies this`rows, this`high, this`minted, this`clock, this`workers, this`dropped
      ensures rest == between + [Mint(k)]
      ensures Snapshot() == Run(old(Snapshot()), rest) && Ordered(Snapshot())
      ensures k < |workers| && workers[k] == Landed(item, id)
    {
      Interfere(between, k);
      RunSnoc(old(Snapshot()), between, Mint(k));
      rest := between + [Mint(k)];
      OrderedStep(Snapshot(), Mint(k));
      id := MintEvent(item);
      workers := workers[k := Landed(item, id)];
    }

    // -------------------------------------------------------------- responses

    /** `_close_noted`, on the row at position `at`. */
    method CloseNoted(at: nat)
      requires at < |rows|
      modifies this`rows, this`dropped
      ensures rows == old(rows)[at := Responses.CloseNoted(old(rows[at]), clock)]
      ensures dropped == old(dropped) + (multiset(old(rows[at]).attachments) - multiset(rows[at].attachments))
    {
      var event := rows[at];
      if event.status == Responded { return; }
      var response :=
        Response(Some(RESPONSE_STATUS_NOTED), Some(0), Some(clock - event.createdAt), Some(clock), Some(Sha("")));
      dropped := dropped + multiset(event.attachments);
      rows := rows[at := event.(response := response, status := Responded, body := None, attachments := [])];
    }

    /** Conversation identity, set once. */
    method AdoptConversation(at: nat, conversation: Option<string>)
      requires at < |rows|
      modifies this`rows
      ensures rows == old(rows)[at := Responses.Adopt(old(rows)[at], conversation)]
    {
      if Truthy(conversation) && !Truthy(rows[at].conversation) {
        rows := rows[at := rows[at].(conversation := conversation)];
      }
    }

    /** Speech for the platform, on the row at `at`: swallow an exact retry, forward, close on `done`. */
    method Speak(at: nat, id: EventId, body: string, status: string, reachable: bool) returns (recorded: Recorded)
      requires at < |rows| && status != RESPONSE_STATUS_NOTED
      modifies this`rows, this`dropped, this`sent
      ensures var outcome := Responses.Answer(old(rows)[at], Responses.Post(body, status, None, reachable, clock));
              && rows == old(rows)[at := outcome.row]
              && dropped == old(dropped) + (multiset(old(rows)[at].attachments) - multiset(outcome.row.attachments))
              && sent == old(sent) + (if outcome.sent.Some? then [(id, outcome.sent.value)] else [])
              && recorded == if outcome.failed then DeliveryError else Acknowledged(outcome.row)
    {
      var sha := Sha(body);
      if rows[at].status == Responded && rows[at].response.sha == Some(sha) {
        return Acknowledged(rows[at]);
      }
      if !reachable { return DeliveryError; }
      sent := sent + [(id, body)];
      var event := rows[at];
      if event.status == Responded {
        rows := rows[at := event.(response := event.response.(sha := Some(sha), len := Some(|body|)))];
        return Acknowledged(rows[at]);
      }
      if status != Responses.DONE { return Acknowledged(event); }
      var response := Response(Some(status), Some(|body|), Some(clock - event.createdAt), Some(clock), Some(sha));
      dropped := dropped + multiset(event.attachments);
      rows := rows[at := event.(response := response, status := Responded, body := None, attachments := [])];
      return Acknowledged(rows[at]);
    }

    /** `record_response` on the row it found: adopt the conversation, swallow exact retries, forward, close on
        `done`. */
    method AnswerAt(at: nat, id: EventId, body: string, status: string, conversation: Option<string>, reachable: bool)
      returns (recorded: Recorded)
      requires at < |rows|
      modifies this`rows, this`dropped, this`sent
      ensures var outcome :=
        Responses.Answer(old(rows)[at], Responses.Post(body, status, conversation, reachable, clock));
              && rows == old(rows)[at := outcome.row]
              && dropped == old(dropped) + (multiset(old(rows)[at].attachments) - multiset(outcome.row.attachments))
              && sent == old(sent) + (if outcome.sent.Some? then [(id, outcome.sent.value)] else [])
              && recorded == if outcome.failed then DeliveryError else Acknowledged(outcome.row)
    {
      ghost var post := Responses.Post(body, status, conversation, reachable, clock);
      AdoptionFirst(rows[at], post);
      UpdateTwice(rows, at, Responses.Adopt(rows[at], conversation), Responses.Answer(rows[at], post).row);
      AdoptConversation(at, conversation);
      recorded := Reply(at, id, body, status, reachable);
    }

    /** The answer once the conversation is settled. */
    method Reply(at: nat, id: EventId, body: string, status: string, reachable: bool) returns (recorded: Recorded)
      requires at < |rows|
      modifies this`rows, this`dropped, this`sent
      ensures var outcome := Responses.Answer(old(rows)[at], Responses.Post(body, status, None, reachable, clock));
              && rows == old(rows)[at := outcome.row]
              && dropped == old(dropped) + (multiset(old(rows)[at].attachments) - multiset(outcome.row.attachments))
              && sent == old(sent) + (if outcome.sent.Some? then [(id, outcome.sent.value)] else [])
              && recorded == if outcome.failed then DeliveryError else Acknowledged(outcome.row)
    {
      if status == RESPONSE_STATUS_NOTED {
        NotedAnswer(rows[at], Responses.Post(body, status, None, reachable, clock));
        CloseNoted(at);
        return Acknowledged(rows[at]);
      }
      recorded := Speak(at, id, body, status, reachable);
    }

    /** `record_response`: an event of the repo is answered, any other id is unknown and nothing happens. */
    method RecordResponse(repo: string, id: EventId, body: string, status: string, conversation: Option<string>,
                          reachable: bool)
      returns (recorded: Recorded)
      modifies this`rows, this`dropped, this`sent
      ensures var at := PositionOf(old(rows), id, repo);
              var post := Responses.Post(body, status, conversation, reachable, clock);
              && (at == None ==> recorded == NotFound && unchanged(this))
              && (at.Some? ==>
                    var outcome := Responses.Answer(old(rows)[at.value], post);
                    && rows == old(rows)[at.value := outcome.row]
                    && dropped ==
                      old(dropped) + (multiset(old(rows)[at.value].attachments) - multiset(outcome.row.attachments))
                    && sent == old(sent) + (if outcome.sent.Some? then [(id, outcome.sent.value)] else [])
                    && recorded == if outcome.failed then DeliveryError else Acknowledged(outcome.row))
    {
      var position := PositionOf(rows, id, repo);
      if position == None { return NotFound; }
      recorded := AnswerAt(position.value, id, body, status, conversation, reachable);
    }

    // -------------------------------------------------------------- collection

    /** The close of one stale row. */
    method ExpireAt(at: nat, cutoff: int, ghost horizon: nat) returns (stale: bool)
      requires at < |rows| && cutoff == clock - horizon
      modifies this`rows, this`dropped
      ensures stale <==> old(rows[at]).status == Queued && old(rows[at]).createdAt < clock - horizon
      ensures rows == old(rows)[at := ExpireRow(old(rows[at]), clock, horizon)]
      ensures dropped == old(dropped) + (multiset(old(rows[at]).attachments) - multiset(rows[at].attachments))
    {
      var event := rows[at];
      stale := event.status == Queued && event.createdAt < cutoff;
      if stale {
        var response :=
          Response(Some(RESPONSE_STATUS_EXPIRED), Some(0), Some(clock - event.createdAt), Some(clock), Some(Sha("")));
        dropped := dropped + multiset(event.attachments);
        rows := rows[at := event.(response := response, status := Responded, body := None, attachments := [])];
      }
    }

    /** `_expire_stale_queued`: close every queued row older than the horizon, one row at a time. */
    method ExpireStaleQueued(horizon: nat) returns (count: nat)
      requires horizon > 0
      modifies this`rows, this`dropped
      ensures rows == Rewrite(old(rows), ExpireStale(clock, horizon))
      ensures dropped == old(dropped) + Shed(old(rows), ExpireStale(clock, horizon))
      ensures count == StaleCount(old(rows), clock, horizon)
    {
      var cutoff := clock - horizon;
      ghost var before, dropped0 := rows, dropped;
      count := 0;
      var i := 0;
      while i < |rows|
        invariant 0 <= i <= |rows| == |before|
        invariant rows == ExpiryLoop(before, i, clock, horizon).0
        invariant dropped == dropped0 + ExpiryLoop(before, i, clock, horizon).1
        invariant count == ExpiryLoop(before, i, clock, horizon).2
      {
        count := ExpireNextRow(i, cutoff, count, horizon, before, dropped0);
        i := i + 1;
      }
      ExpiryLoopEnds(before, clock, horizon);
    }

    /** One turn of the loop. */
    method ExpireNextRow(i: nat, cutoff: int, counted: nat, ghost horizon: nat, ghost before: seq<Row>,
                         ghost dropped0: multiset<Pointer>)
      returns (count: nat)
      requires i < |rows| == |before| && cutoff == clock - horizon
      requires rows == ExpiryLoop(before, i, clock, horizon).0
      requires dropped == dropped0 + ExpiryLoop(before, i, clock, horizon).1
      requires counted == ExpiryLoop(before, i, clock, horizon).2
      modifies this`rows, this`dropped
      ensures |rows| == |before| && rows == ExpiryLoop(before, i + 1, clock, horizon).0
      ensures dropped == dropped0 + ExpiryLoop(before, i + 1, clock, horizon).1
      ensures count == ExpiryLoop(before, i + 1, clock, horizon).2
    {
      ExpiryLoopStep(before, i, clock, horizon);
      var stale := ExpireAt(i, cutoff, horizon);
      count := if stale then counted + 1 else counted;
    }

    /** The collector's two bulk statements. */
    method SweepRows()
      modifies this`rows, this`dropped, this`high
      ensures Snapshot() == Swept(old(Snapshot()))
    {
      RewriteTwice(rows, DeleteOld(clock), NullOldBodies(clock), SweepOld(clock));
      dropped := dropped + Shed(rows, SweepOld(clock));
      rows := Rewrite(rows, DeleteOld(clock));
      rows := Rewrite(rows, NullOldBodies(clock));
      // SQLite keeps no counter: the next insert sees only what is left.
      if alloc.MaxPlusOne? { high := MaxSeq(rows); }
    }

    /** `gc_events`: at most once an hour, expire by horizon, delete rows past their TTL, null bodies past theirs. */
    method GcEvents(tick: int, force: bool, staleHorizon: Option<int>) returns (ran: bool)
      modifies this`rows, this`dropped, this`gcAt, this`high
      ensures ran <==> force || old(gcAt) == None || tick - old(gcAt).value >= GC_INTERVAL
      ensures !ran ==> unchanged(this)
      ensures ran ==> gcAt == Some(tick) && Snapshot() == Collected(old(Snapshot()), staleHorizon)
    {
      if !force && gcAt.Some? && tick - gcAt.value < GC_INTERVAL { return false; }
      gcAt := Some(tick);
      var horizon := staleHorizon.GetOr(STALE_HORIZON_DEFAULT);
      if horizon > 0 {
        var expired := ExpireStaleQueued(horizon);
      }
      SweepRows();
      return true;
    }
  }
}
