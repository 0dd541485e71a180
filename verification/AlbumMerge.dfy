// Concurrent `enqueue` calls folding Telegram album items into one queued row.
//
// Each webhook call is a worker that takes two kinds of atomic step: the SELECT for an open
// album, and the write transaction that inserts a replacement, deletes the row it read if that
// row is still current, and renames the replacement. Closes, response writes, expiry, the
// hourly sweep and the clock are further steps, in any interleaving.
module AlbumMerge {
  import opened Wrappers
  import opened EventTable
  import opened Text

  /** One inbound message, `album` being Telegram's stripped marker. */
  datatype Item = Item(
    repo: string,
    source: string,
    body: string,
    attachments: seq<Pointer>,
    album: Option<string>,
    group: Option<string>,
    chat: Option<string>)

  const TELEGRAM := "telegram"
  const MERGE_MAX_ATTEMPTS := 12

  // ---------------------------------------------------------------- one attempt

  predicate IsOpenFor(r: Row, item: Item, now: int) {
    && item.album.Some?
    && r.repo == item.repo
    && r.status == Queued
    && r.source == TELEGRAM
    && r.createdAt >= now - MERGE_WINDOW
    && r.group == item.album
    && (item.chat == None || r.chat == item.chat)
  }

  /** The newest open row of the item's album. */
  function OpenAlbum(rows: seq<Row>, item: Item, now: int): (found: Option<Row>)
    ensures found.Some? ==> found.value in rows && IsOpenFor(found.value, item, now)
    ensures found == None ==> forall r :: r in rows ==> !IsOpenFor(r, item, now)
    ensures found.Some? && Ascending(rows) ==>
      forall r :: r in rows && IsOpenFor(r, item, now) ==> r.seqNo <= found.value.seqNo
  {
    if rows == [] then None
    else if IsOpenFor(rows[|rows| - 1], item, now) then Some(rows[|rows| - 1])
    else
      assert rows == rows[..|rows| - 1] + [rows[|rows| - 1]];
      OpenAlbum(rows[..|rows| - 1], item, now)
  }

  function MergedBody(read: Row, item: Item): Option<string> {
    if item.body != "" && Blank(read.body.GetOr("")) then Some(item.body) else read.body
  }

  predicate AddsNothing(read: Row, item: Item) {
    MergedBody(read, item) == read.body && item.attachments == []
  }

  function Replacement(read: Row, item: Item, seqNo: nat, id: EventId): Row {
    read.(seqNo := seqNo, id := id, body := MergedBody(read, item), attachments := read.attachments + item.attachments)
  }

  function FreshRow(item: Item, seqNo: nat, id: EventId, now: int): Row {
    Row(seqNo, id, item.repo, item.source, if item.album.Some? then item.album else item.group, item.chat,
        Some(item.body), item.attachments, Queued, now, UNANSWERED, None)
  }

  /** The row count of the guarded DELETE. */
  predicate StillCurrent(rows: seq<Row>, read: Row) {
    exists r :: r in rows && SwapMatches(r, read)
  }

  // ---------------------------------------------------------------- the machine

  datatype Worker =
    | Searching(item: Item, attempt: nat)
    | Holding(item: Item, attempt: nat, read: Row)
    | Minting(item: Item)
    | Landed(item: Item, id: EventId)

  /** `dropped` is history: every pointer a close, an expiry or a sweep took off the table. */
  datatype World = World(
    alloc: Allocator,
    rows: seq<Row>,
    high: nat,
    minted: nat,
    now: int,
    workers: seq<Worker>,
    dropped: multiset<Pointer>)

  datatype Step =
    | Tick(elapsed: nat)
    | Arrive(item: Item)
    | Search(k: nat)
    | Swap(k: nat)
    | Mint(k: nat)
    | Close(at: nat, response: Response)
    | Continue(at: nat, sha: Sha, len: nat)
    | AdoptConversation(at: nat, conversation: string)
    | Expire(horizon: nat)
    | Sweep

  function Arrival(item: Item): Worker {
    if item.album.Some? then Searching(item, 0) else Minting(item)
  }

  /** Out of attempts, an album item is minted as an event of its own. */
  function Retry(item: Item, attempt: nat): Worker {
    if attempt + 1 < MERGE_MAX_ATTEMPTS then Searching(item, attempt + 1) else Minting(item)
  }

  function AfterSearch(w: World, item: Item, attempt: nat): Worker {
    match OpenAlbum(w.rows, item, w.now)
    case None => Minting(item)
    case Some(read) => if AddsNothing(read, item) then Landed(item, read.id) else Holding(item, attempt, read)
  }

  /** The whole write transaction of an attempt. A rolled back insert still spends a sequence value. */
  function SwapResult(w: World, k: nat, item: Item, attempt: nat, read: Row): World {
    var seqNo := NextSeq(w.alloc, w.rows, w.high);
    if StillCurrent(w.rows, read) then
      w.(rows := Rewrite(w.rows, DeleteIfCurrent(read)) + [Replacement(read, item, seqNo, read.id)],
         high := seqNo,
         minted := w.minted + 1,
         workers := if k < |w.workers| then w.workers[k := Landed(item, read.id)] else w.workers)
    else
      w.(high := if w.alloc.Sequence? then seqNo else w.high,
         minted := w.minted + 1,
         workers := if k < |w.workers| then w.workers[k := Retry(item, attempt)] else w.workers)
  }

  function MintResult(w: World, k: nat, item: Item): World {
    var seqNo := NextSeq(w.alloc, w.rows, w.high);
    w.(rows := w.rows + [FreshRow(item, seqNo, Minted(w.minted), w.now)],
       high := seqNo,
       minted := w.minted + 1,
       workers := if k < |w.workers| then w.workers[k := Landed(item, Minted(w.minted))] else w.workers)
  }

  function Rewritten(w: World, f: Row -> Option<Row>): World {
    w.(rows := Rewrite(w.rows, f), dropped := w.dropped + Shed(w.rows, f))
  }

  /** A sweep; max+1 keeps no counter of its own, so what it has dispensed is read off what is left. */
  function Swept(w: World): World {
    var v := Rewritten(w, SweepOld(w.now));
    v.(high := match w.alloc case MaxPlusOne => MaxSeq(v.rows) case Sequence => w.high)
  }

  /** One atomic step; a step that is not enabled changes nothing. */
  function Next(w: World, step: Step): World {
    match step
    case Tick(elapsed) => w.(now := w.now + elapsed)
    case Arrive(item) => w.(workers := w.workers + [Arrival(item)])
    case Search(k) =>
      if k < |w.workers| && w.workers[k].Searching? then
        w.(workers := w.workers[k := AfterSearch(w, w.workers[k].item, w.workers[k].attempt)])
      else w
    case Swap(k) =>
      if k < |w.workers| && w.workers[k].Holding? then
        SwapResult(w, k, w.workers[k].item, w.workers[k].attempt, w.workers[k].read)
      else w
    case Mint(k) =>
      if k < |w.workers| && w.workers[k].Minting? then MintResult(w, k, w.workers[k].item) else w
    case Close(at, response) => Rewritten(w, CloseAt(at, response))
    case Continue(at, sha, len) => Rewritten(w, ContinueAt(at, sha, len))
    case AdoptConversation(at, conversation) => Rewritten(w, AdoptConversationAt(at, conversation))
    case Expire(horizon) => if horizon > 0 then Rewritten(w, ExpireStale(w.now, horizon)) else w
    case Sweep => Swept(w)
  }

  function Run(w: World, steps: seq<Step>): World
    decreases |steps|
  {
    if steps == [] then w else Run(Next(w, steps[0]), steps[1..])
  }

  /** Somebody still holds the reading of a row whose `seq` the next inserts are going to reach again. */
  ghost predicate ReadsAbove(w: World, high: nat) {
    exists k :: 0 <= k < |w.workers| && w.workers[k].Holding? && w.workers[k].read.seqNo > high
  }

  /** A Postgres deployment may sweep at any time; a SQLite one may, unless a merge in flight read a row above
      all that the sweep leaves. */
  ghost predicate SafeStep(w: World, step: Step) {
    w.alloc.MaxPlusOne? && step.Sweep? ==> !ReadsAbove(w, Swept(w).high)
  }

  ghost predicate SafeRun(w: World, steps: seq<Step>)
    decreases |steps|
  {
    steps == [] || (SafeStep(w, steps[0]) && SafeRun(Next(w, steps[0]), steps[1..]))
  }

  // ---------------------------------------------------------------- the invariant

  ghost predicate RowOk(r: Row, high: nat, minted: nat, now: int) {
    && 1 <= r.seqNo <= high
    && r.id.Minted? && r.id.n < minted
    && r.createdAt <= now
    && (r.status == Responded ==> r.body == None && r.attachments == [])
    && (r.status == Queued && r.body == None ==> r.createdAt < now - BODY_TTL)
  }

  /** What a worker may rely on about the row it read, however old the reading is. */
  ghost predicate ReadOk(read: Row, rows: seq<Row>, high: nat, minted: nat, now: int) {
    && RowOk(read, high, minted, now)
    && read.status == Queued && read.body.Some?
    && (forall r :: r in rows && r.seqNo == read.seqNo ==> SameEvent(r, read))
    && (forall r :: r in rows && r.id == read.id ==> r.seqNo >= read.seqNo)
  }

  ghost predicate TableOk(w: World) {
    && Ascending(w.rows) && DistinctIds(w.rows)
    && (forall r :: r in w.rows ==> RowOk(r, w.high, w.minted, w.now))
    && (w.alloc.MaxPlusOne? ==> w.high == MaxSeq(w.rows))
  }

  ghost predicate ReadersOk(w: World) {
    forall k :: 0 <= k < |w.workers| && w.workers[k].Holding? ==>
      ReadOk(w.workers[k].read, w.rows, w.high, w.minted, w.now)
  }

  /** The pointers of every call that has returned. */
  ghost function Accepted(workers: seq<Worker>): multiset<Pointer> {
    if workers == [] then multiset{}
    else
      Accepted(workers[..|workers| - 1]) +
      (if workers[|workers| - 1].Landed? then multiset(workers[|workers| - 1].item.attachments) else multiset{})
  }

  ghost predicate Conserved(w: World) {
    Held(w.rows) + w.dropped == Accepted(w.workers)
  }

  ghost predicate Inv(w: World) {
    TableOk(w) && ReadersOk(w) && Conserved(w)
  }

  ghost predicate Init(w: World) {
    w.rows == [] && w.workers == [] && w.high == 0 && w.dropped == multiset{}
  }

  lemma InitInv(w: World)
    requires Init(w)
    ensures Inv(w)
  {
  }

  // ---------------------------------------------------------------- bookkeeping of workers

  lemma {:induction false} AcceptedUpdate(workers: seq<Worker>, k: nat, to: Worker)
    requires k < |workers| && !workers[k].Landed?
    ensures Accepted(workers[k := to]) ==
            Accepted(workers) + (if to.Landed? then multiset(to.item.attachments) else multiset{})
  {
    var n := |workers| - 1;
    if k == n {
      assert workers[k := to][..n] == workers[..n];
    } else {
      AcceptedUpdate(workers[..n], k, to);
      assert workers[k := to][..n] == workers[..n][k := to];
    }
  }

  // ---------------------------------------------------------------- rewrites keep the invariant

  lemma RewrittenConserves(w: World, f: Row -> Option<Row>)
    requires Conserved(w) && Trims(f)
    ensures Conserved(Rewritten(w, f))
  {
    RewriteConserves(w.rows, f);
  }

  /** Besides trimming, a rewrite at time `now` nulls a queued body only past the body TTL. */
  ghost predicate Ages(f: Row -> Option<Row>, now: int) {
    && Trims(f)
    && (forall r :: f(r).Some? && f(r).value.status == Queued ==>
          f(r).value.body == r.body || r.createdAt < now - BODY_TTL)
  }

  /** The steps that write to rows where they stand. */
  predicate IsRewrite(step: Step) {
    step.Close? || step.Continue? || step.AdoptConversation? || step.Expire? || step.Sweep?
  }

  function AsItIs(): Row -> Option<Row> {
    (r: Row) => Some(r)
  }

  lemma NothingRewritten(w: World)
    ensures Rewritten(w, AsItIs()) == w
  {
    RewriteIdentity(w.rows, AsItIs());
  }

  /** What such a step does to each row. */
  function RewriteBy(w: World, step: Step): Row -> Option<Row>
    requires IsRewrite(step)
  {
    match step
    case Close(at, response) => CloseAt(at, response)
    case Continue(at, sha, len) => ContinueAt(at, sha, len)
    case AdoptConversation(at, conversation) => AdoptConversationAt(at, conversation)
    case Expire(horizon) => if horizon > 0 then ExpireStale(w.now, horizon) else AsItIs()
    case Sweep => SweepOld(w.now)
  }

  lemma SweepIsRewrite(w: World)
    ensures Swept(w).(high := w.high) == Rewritten(w, SweepOld(w.now))
  {
  }

  lemma ExpiryIsRewrite(w: World, horizon: nat)
    ensures Next(w, Expire(horizon)) == Rewritten(w, RewriteBy(w, Expire(horizon)))
  {
    if horizon == 0 { NothingRewritten(w); }
  }

  lemma WriteIsRewrite(w: World, step: Step)
    requires step.Close? || step.Continue? || step.AdoptConversation?
    ensures Next(w, step) == Rewritten(w, RewriteBy(w, step))
  {
  }

  lemma StepIsRewrite(w: World, step: Step)
    requires IsRewrite(step)
    ensures Next(w, step).(high := w.high) == Rewritten(w, RewriteBy(w, step))
    ensures !step.Sweep? ==> Next(w, step) == Rewritten(w, RewriteBy(w, step))
  {
    if step.Sweep? {
      SweepIsRewrite(w);
    } else if step.Expire? {
      ExpiryIsRewrite(w, step.horizon);
    } else {
      WriteIsRewrite(w, step);
    }
  }

  lemma StepKeepsRows(w: World, step: Step)
    requires IsRewrite(step) && !step.Sweep?
    ensures forall r :: RewriteBy(w, step)(r).Some?
  {
  }

  lemma WriteAges(at: nat, response: Response, sha: Sha, len: nat, conversation: string, now: int)
    ensures Ages(CloseAt(at, response), now)
    ensures Ages(ContinueAt(at, sha, len), now)
    ensures Ages(AdoptConversationAt(at, conversation), now)
  {
  }

  lemma ExpiryAges(now: int, horizon: int)
    ensures Ages(ExpireStale(now, horizon), now) && Ages(SweepOld(now), now)
  {
  }

  lemma StepAges(w: World, step: Step)
    requires IsRewrite(step)
    ensures Ages(RewriteBy(w, step), w.now)
  {
    match step
    case Close(at, response) => WriteAges(at, response, Sha(""), 0, "", w.now);
    case Continue(at, sha, len) => WriteAges(at, UNANSWERED, sha, len, "", w.now);
    case AdoptConversation(at, conversation) => WriteAges(at, UNANSWERED, Sha(""), 0, conversation, w.now);
    case Expire(horizon) => ExpiryAges(w.now, horizon);
    case Sweep => ExpiryAges(w.now, 0);
  }

  lemma RewriteKeepsRows(w: World, f: Row -> Option<Row>, s: Row)
    requires TableOk(w) && Ages(f, w.now)
    requires s in Rewrite(w.rows, f)
    ensures RowOk(s, w.high, w.minted, w.now)
    ensures exists o :: o in w.rows && SameEvent(o, s)
    ensures s.status == Queued ==> exists o :: o in w.rows && SameEvent(o, s) && o.status == Queued
  {
    RewriteOrigin(w.rows, f, s);
    var o :| o in w.rows && f(o) == Some(s);
    assert SameEvent(o, s);
    assert RowOk(o, w.high, w.minted, w.now);
  }

  lemma RewriteKeepsMax(rows: seq<Row>, f: Row -> Option<Row>)
    requires Trims(f)
    requires rows == [] || f(rows[|rows| - 1]).Some?
    ensures MaxSeq(Rewrite(rows, f)) == MaxSeq(rows)
  {
  }

  lemma RewrittenInv(w: World, f: Row -> Option<Row>)
    requires Inv(w) && Ages(f, w.now)
    requires w.alloc.MaxPlusOne? ==> w.rows == [] || f(w.rows[|w.rows| - 1]).Some?
    ensures Inv(Rewritten(w, f))
  {
    var v := Rewritten(w, f);
    RewriteAscends(w.rows, f);
    RewriteKeepsIdsApart(w.rows, f);
    forall s | s in v.rows ensures RowOk(s, v.high, v.minted, v.now) {
      RewriteKeepsRows(w, f, s);
    }
    if w.alloc.MaxPlusOne? {
      RewriteKeepsMax(w.rows, f);
    }
    RewrittenConserves(w, f);
    RewrittenReaders(w, f);
  }

  lemma RewrittenReaders(w: World, f: Row -> Option<Row>)
    requires TableOk(w) && ReadersOk(w) && Ages(f, w.now)
    ensures ReadersOk(Rewritten(w, f))
  {
    var v := Rewritten(w, f);
    forall s | s in v.rows ensures exists o :: o in w.rows && SameEvent(o, s) {
      RewriteKeepsRows(w, f, s);
    }
    forall k | 0 <= k < |v.workers| && v.workers[k].Holding?
      ensures ReadOk(v.workers[k].read, v.rows, v.high, v.minted, v.now)
    {
      assert ReadOk(w.workers[k].read, w.rows, w.high, w.minted, w.now);
    }
  }

  lemma LastIsMax(rows: seq<Row>, r: Row)
    requires Ascending(rows) && r in rows
    ensures r.seqNo <= MaxSeq(rows)
  {
    var i :| 0 <= i < |rows| && rows[i] == r;
  }

  /** A sweep keeps the invariant even when the newest row goes, as long as nobody has read above what stays. */
  lemma SweepKeepsInv(w: World)
    requires Inv(w) && SafeStep(w, Sweep)
    ensures Inv(Swept(w))
  {
    RewrittenConserves(w, SweepOld(w.now));
    SweepKeepsTable(w);
    SweepKeepsReaders(w);
  }

  lemma SweptRows(w: World, s: Row)
    requires TableOk(w) && s in Swept(w).rows
    ensures Ascending(Swept(w).rows) && RowOk(s, Swept(w).high, w.minted, w.now)
    ensures exists o :: o in w.rows && SameEvent(o, s)
  {
    RewriteAscends(w.rows, SweepOld(w.now));
    RewriteKeepsRows(w, SweepOld(w.now), s);
    LastIsMax(Swept(w).rows, s);
  }

  lemma SweepKeepsTable(w: World)
    requires TableOk(w)
    ensures TableOk(Swept(w))
  {
    RewriteAscends(w.rows, SweepOld(w.now));
    RewriteKeepsIdsApart(w.rows, SweepOld(w.now));
    forall s | s in Swept(w).rows ensures RowOk(s, Swept(w).high, w.minted, w.now) { SweptRows(w, s); }
  }

  lemma SweepKeepsReaders(w: World)
    requires TableOk(w) && ReadersOk(w) && SafeStep(w, Sweep)
    ensures ReadersOk(Swept(w))
  {
    var v := Swept(w);
    forall s | s in v.rows ensures exists o :: o in w.rows && SameEvent(o, s) { SweptRows(w, s); }
    forall k | 0 <= k < |v.workers| && v.workers[k].Holding?
      ensures ReadOk(v.workers[k].read, v.rows, v.high, v.minted, v.now)
    {
      assert ReadOk(w.workers[k].read, w.rows, w.high, w.minted, w.now);
    }
  }

  // ---------------------------------------------------------------- appending a row

  lemma AppendInv(w: World, rows: seq<Row>, r: Row, high: nat, minted: nat)
    requires TableOk(w) && minted >= w.minted
    requires Ascending(rows) && DistinctIds(rows)
    requires forall s :: s in rows ==> RowOk(s, w.high, w.minted, w.now) && s.id != r.id
    requires RowOk(r, high, minted, w.now) && high == r.seqNo > w.high
    ensures TableOk(w.(rows := rows + [r], high := high, minted := minted))
  {
    var all := rows + [r];
    forall s | s in all ensures RowOk(s, high, minted, w.now) {}
    forall i, j | 0 <= i < j < |all| ensures all[i].seqNo < all[j].seqNo && all[i].id != all[j].id {
      assert all[i] in rows;
    }
  }

  lemma NextSeqIsNew(w: World)
    requires TableOk(w)
    ensures NextSeq(w.alloc, w.rows, w.high) > w.high
  {
  }

  lemma ReadersSurviveAppend(w: World, v: World, r: Row)
    requires ReadersOk(w) && r.seqNo > w.high
    requires v.high >= w.high && v.minted >= w.minted && v.now == w.now
    requires forall s :: s in v.rows ==> s in w.rows || s == r
    requires forall k ::
      0 <= k < |v.workers| && v.workers[k].Holding? ==> k < |w.workers| && v.workers[k] == w.workers[k]
    ensures ReadersOk(v)
  {
  }

  // ---------------------------------------------------------------- the merge transaction

  lemma DeleteTrims(read: Row)
    ensures Trims(DeleteIfCurrent(read))
  {
  }

  lemma AscendingUnique(rows: seq<Row>, r: Row, s: Row)
    requires Ascending(rows) && r in rows && s in rows && r.seqNo == s.seqNo
    ensures r == s
  {
    var i :| 0 <= i < |rows| && rows[i] == r;
    var j :| 0 <= j < |rows| && rows[j] == s;
  }

  lemma DistinctIdsUnique(rows: seq<Row>, r: Row, s: Row)
    requires DistinctIds(rows) && r in rows && s in rows && r.id == s.id
    ensures r == s
  {
    var i :| 0 <= i < |rows| && rows[i] == r;
    var j :| 0 <= j < |rows| && rows[j] == s;
  }

  /** The guarded delete leaves every other row, and only those. */
  lemma DeletedRowsAreOthers(rows: seq<Row>, read: Row, s: Row)
    requires Ascending(rows) && StillCurrent(rows, read)
    ensures s in Rewrite(rows, DeleteIfCurrent(read)) <==> s in rows && s.seqNo != read.seqNo
  {
    var f := DeleteIfCurrent(read);
    if s in Rewrite(rows, f) {
      RewriteOrigin(rows, f, s);
      var r :| r in rows && SwapMatches(r, read);
      if s.seqNo == read.seqNo { AscendingUnique(rows, r, s); }
    } else if s in rows && s.seqNo != read.seqNo {
      RewriteImage(rows, f, s);
    }
  }

  lemma {:induction false} DeletedPointersAt(rows: seq<Row>, read: Row, i: nat)
    requires Ascending(rows) && i < |rows| && SwapMatches(rows[i], read)
    ensures Held(Rewrite(rows, DeleteIfCurrent(read))) + multiset(read.attachments) == Held(rows)
  {
    var f := DeleteIfCurrent(read);
    var n := |rows| - 1;
    var init := rows[..n];
    if i == n {
      assert Rewrite(rows, f) == Rewrite(init, f);
      RewriteIdentity(init, f) by {
        forall s | s in init ensures f(s) == Some(s) {
          var j :| 0 <= j < n && rows[j] == s;
        }
      }
    } else {
      assert Rewrite(rows, f) == Rewrite(init, f) + [rows[n]] by {
        assert rows[i].seqNo < rows[n].seqNo;
      }
      DeletedPointersAt(init, read, i);
      HeldAppend(Rewrite(init, f), rows[n]);
    }
  }

  /** The guarded delete takes exactly the pointers the worker read. */
  lemma DeletedPointers(rows: seq<Row>, read: Row)
    requires Ascending(rows) && StillCurrent(rows, read)
    ensures Held(Rewrite(rows, DeleteIfCurrent(read))) + multiset(read.attachments) == Held(rows)
  {
    var r :| r in rows && SwapMatches(r, read);
    var i :| 0 <= i < |rows| && rows[i] == r;
    DeletedPointersAt(rows, read, i);
  }

  /** What a successful swap does to the table, read off before any invariant is used. */
  lemma SwapTable(w: World, read: Row, r: Row, minted: nat)
    requires TableOk(w) && minted >= w.minted
    requires ReadOk(read, w.rows, w.high, w.minted, w.now) && StillCurrent(w.rows, read)
    requires r.id == read.id && RowOk(r, r.seqNo, minted, w.now) && r.seqNo > w.high
    ensures TableOk(w.(rows := Rewrite(w.rows, DeleteIfCurrent(read)) + [r], high := r.seqNo, minted := minted))
    ensures forall s :: s in Rewrite(w.rows, DeleteIfCurrent(read)) ==> s in w.rows
  {
    var f := DeleteIfCurrent(read);
    var kept := Rewrite(w.rows, f);
    var current :| current in w.rows && SwapMatches(current, read);
    DeleteTrims(read);
    RewriteAscends(w.rows, f);
    RewriteKeepsIdsApart(w.rows, f);
    forall s | s in kept ensures s in w.rows && s.id != read.id {
      DeletedRowsAreOthers(w.rows, read, s);
      if s.id == read.id { DistinctIdsUnique(w.rows, s, current); }
    }
    AppendInv(w, kept, r, r.seqNo, minted);
  }

  lemma SwapConserves(w: World, k: nat, read: Row, item: Item, r: Row)
    requires Ascending(w.rows) && Conserved(w) && StillCurrent(w.rows, read)
    requires k < |w.workers| && !w.workers[k].Landed? && r.attachments == read.attachments + item.attachments
    ensures Held(Rewrite(w.rows, DeleteIfCurrent(read)) + [r]) + w.dropped ==
      Accepted(w.workers[k := Landed(item, read.id)])
  {
    DeletedPointers(w.rows, read);
    HeldAppend(Rewrite(w.rows, DeleteIfCurrent(read)), r);
    AcceptedUpdate(w.workers, k, Landed(item, read.id));
    assert multiset(r.attachments) == multiset(read.attachments) + multiset(item.attachments);
  }

  lemma SwapLandsKeepsInv(w: World, k: nat)
    requires Inv(w)
    requires k < |w.workers| && w.workers[k].Holding? && StillCurrent(w.rows, w.workers[k].read)
    ensures Inv(Next(w, Swap(k)))
  {
    var read, item := w.workers[k].read, w.workers[k].item;
    SwapLandsTable(w, k);
    SwapConserves(w, k, read, item, Replacement(read, item, NextSeq(w.alloc, w.rows, w.high), read.id));
  }

  lemma SwapLandsTable(w: World, k: nat)
    requires TableOk(w) && ReadersOk(w)
    requires k < |w.workers| && w.workers[k].Holding? && StillCurrent(w.rows, w.workers[k].read)
    ensures TableOk(Next(w, Swap(k))) && ReadersOk(Next(w, Swap(k)))
  {
    var read := w.workers[k].read;
    var r := Replacement(read, w.workers[k].item, NextSeq(w.alloc, w.rows, w.high), read.id);
    NextSeqIsNew(w);
    assert ReadOk(read, w.rows, w.high, w.minted, w.now);
    SwapTable(w, read, r, w.minted + 1);
    ReadersSurviveAppend(w, Next(w, Swap(k)), r);
  }

  /** A swap that finds its row changed writes nothing, and the worker reads again. */
  lemma SwapMissesKeepsInv(w: World, k: nat)
    requires Inv(w)
    requires k < |w.workers| && w.workers[k].Holding? && !StillCurrent(w.rows, w.workers[k].read)
    ensures Inv(Next(w, Swap(k)))
  {
    var worker := w.workers[k];
    NextSeqIsNew(w);
    AcceptedUpdate(w.workers, k, Retry(worker.item, worker.attempt));
  }

  lemma SwapKeepsInv(w: World, k: nat)
    requires Inv(w)
    requires k < |w.workers| && w.workers[k].Holding?
    ensures Inv(Next(w, Swap(k)))
  {
    if StillCurrent(w.rows, w.workers[k].read) {
      SwapLandsKeepsInv(w, k);
    } else {
      SwapMissesKeepsInv(w, k);
    }
  }

  lemma MintKeepsInv(w: World, k: nat)
    requires Inv(w)
    requires k < |w.workers| && w.workers[k].Minting?
    ensures Inv(Next(w, Mint(k)))
  {
    var item := w.workers[k].item;
    var r := FreshRow(item, NextSeq(w.alloc, w.rows, w.high), Minted(w.minted), w.now);
    NextSeqIsNew(w);
    AppendInv(w, w.rows, r, r.seqNo, w.minted + 1);
    ReadersSurviveAppend(w, Next(w, Mint(k)), r);
    HeldAppend(w.rows, r);
    AcceptedUpdate(w.workers, k, Landed(item, Minted(w.minted)));
  }

  lemma SearchKeepsInv(w: World, k: nat)
    requires Inv(w)
    requires k < |w.workers| && w.workers[k].Searching?
    ensures Inv(Next(w, Search(k)))
  {
    var item := w.workers[k].item;
    var to := AfterSearch(w, item, w.workers[k].attempt);
    AcceptedUpdate(w.workers, k, to);
    if OpenAlbum(w.rows, item, w.now).Some? { OpenRowIsOk(w, item, OpenAlbum(w.rows, item, w.now).value); }
  }

  /** A row inside the merge window is far younger than the body TTL, so its body is not null. */
  lemma OpenRowIsOk(w: World, item: Item, read: Row)
    requires TableOk(w) && read in w.rows && IsOpenFor(read, item, w.now)
    ensures ReadOk(read, w.rows, w.high, w.minted, w.now)
  {
    forall r | r in w.rows && (r.seqNo == read.seqNo || r.id == read.id) ensures r == read {
      if r.seqNo == read.seqNo { AscendingUnique(w.rows, r, read); } else { DistinctIdsUnique(w.rows, r, read); }
    }
  }

  lemma ArriveConserves(w: World, item: Item)
    requires Conserved(w)
    ensures Conserved(Next(w, Arrive(item)))
  {
    assert (w.workers + [Arrival(item)])[..|w.workers|] == w.workers;
  }

  lemma ArriveKeepsReaders(w: World, item: Item)
    requires ReadersOk(w)
    ensures ReadersOk(Next(w, Arrive(item)))
  {
  }

  lemma ArriveKeepsInv(w: World, item: Item)
    requires Inv(w)
    ensures Inv(Next(w, Arrive(item)))
  {
    ArriveConserves(w, item);
    ArriveKeepsReaders(w, item);
  }

  lemma TickKeepsInv(w: World, elapsed: nat)
    requires Inv(w)
    ensures Inv(Next(w, Tick(elapsed)))
  {
  }

  lemma RewriteStepKeepsInv(w: World, step: Step)
    requires Inv(w) && SafeStep(w, step) && IsRewrite(step)
    ensures Inv(Next(w, step))
  {
    if step.Sweep? {
      SweepKeepsInv(w);
    } else {
      StepIsRewrite(w, step);
      StepAges(w, step);
      StepKeepsRows(w, step);
      RewrittenInv(w, RewriteBy(w, step));
    }
  }

  lemma StepKeepsInv(w: World, step: Step)
    requires Inv(w) && SafeStep(w, step)
    ensures Inv(Next(w, step))
  {
    match step
    case Tick(elapsed) => TickKeepsInv(w, elapsed);
    case Arrive(item) => ArriveKeepsInv(w, item);
    case Search(k) => if k < |w.workers| && w.workers[k].Searching? { SearchKeepsInv(w, k); }
    case Swap(k) => if k < |w.workers| && w.workers[k].Holding? { SwapKeepsInv(w, k); }
    case Mint(k) => if k < |w.workers| && w.workers[k].Minting? { MintKeepsInv(w, k); }
    case _ => RewriteStepKeepsInv(w, step);
  }

  lemma {:induction false} RunKeepsInv(w: World, steps: seq<Step>)
    requires Inv(w) && SafeRun(w, steps)
    ensures Inv(Run(w, steps))
    decreases |steps|
  {
    if steps != [] {
      StepKeepsInv(w, steps[0]);
      RunKeepsInv(Next(w, steps[0]), steps[1..]);
    }
  }

  // ---------------------------------------------------------------- what no sweep can break

  /** Enough of the table's order for an insert to land behind everything; no assumption about sweeps. */
  ghost predicate Ordered(w: World) {
    && Ascending(w.rows)
    && (forall r :: r in w.rows ==> r.seqNo <= w.high)
    && (w.alloc.MaxPlusOne? ==> w.high == MaxSeq(w.rows))
  }

  lemma NextSeqIsBehind(w: World)
    requires Ordered(w)
    ensures NextSeq(w.alloc, w.rows, w.high) > w.high
    ensures forall r :: r in w.rows ==> r.seqNo < NextSeq(w.alloc, w.rows, w.high)
  {
  }

  lemma OrderedRewrite(w: World, f: Row -> Option<Row>)
    requires Ordered(w) && Trims(f)
    requires w.rows == [] || f(w.rows[|w.rows| - 1]).Some?
    ensures Ordered(Rewritten(w, f))
  {
    RewriteAscends(w.rows, f);
    RewriteKeepsMax(w.rows, f);
    forall s | s in Rewrite(w.rows, f) ensures exists o :: o in w.rows && o.seqNo == s.seqNo {
      RewriteOrigin(w.rows, f, s);
      var o :| o in w.rows && f(o) == Some(s);
    }
  }

  lemma OrderedSweep(w: World)
    requires Ordered(w)
    ensures Ordered(Swept(w)) && Swept(w).high <= w.high
  {
    var f, v := SweepOld(w.now), Swept(w);
    RewriteAscends(w.rows, f);
    forall s | s in v.rows ensures s.seqNo <= w.high && s.seqNo <= MaxSeq(v.rows) {
      RewriteOrigin(w.rows, f, s);
      var o :| o in w.rows && f(o) == Some(s);
      LastIsMax(v.rows, s);
    }
    if v.rows != [] { assert v.rows[|v.rows| - 1] in v.rows; }
  }

  lemma OrderedSwap(w: World, k: nat, item: Item, attempt: nat, read: Row)
    requires Ordered(w)
    ensures Ordered(SwapResult(w, k, item, attempt, read))
  {
    var f := DeleteIfCurrent(read);
    NextSeqIsBehind(w);
    RewriteAscends(w.rows, f);
    forall s | s in Rewrite(w.rows, f) ensures s in w.rows {
      RewriteOrigin(w.rows, f, s);
    }
  }

  lemma OrderedStep(w: World, step: Step)
    requires Ordered(w)
    ensures Ordered(Next(w, step))
  {
    if IsRewrite(step) && !step.Sweep? {
      StepIsRewrite(w, step);
      StepAges(w, step);
      StepKeepsRows(w, step);
      OrderedRewrite(w, RewriteBy(w, step));
    } else {
      match step
      case Swap(k) =>
        if k < |w.workers| && w.workers[k].Holding? {
          OrderedSwap(w, k, w.workers[k].item, w.workers[k].attempt, w.workers[k].read);
        }
      case Mint(k) => NextSeqIsBehind(w);
      case Sweep => OrderedSweep(w);
      case _ =>
    }
  }

  lemma SwapStepConserves(w: World, k: nat)
    requires Ordered(w) && Conserved(w) && k < |w.workers| && w.workers[k].Holding?
    ensures Conserved(Next(w, Swap(k)))
  {
    var worker := w.workers[k];
    if StillCurrent(w.rows, worker.read) {
      SwapConserves(w, k, worker.read, worker.item,
                    Replacement(worker.read, worker.item, NextSeq(w.alloc, w.rows, w.high), worker.read.id));
    } else {
      AcceptedUpdate(w.workers, k, Retry(worker.item, worker.attempt));
    }
  }

  lemma WorkerStepConserves(w: World, step: Step)
    requires Ordered(w) && Conserved(w) && (step.Arrive? || step.Search? || step.Swap? || step.Mint?)
    ensures Conserved(Next(w, step))
  {
    match step
    case Arrive(item) => ArriveConserves(w, item);
    case Search(k) =>
      if k < |w.workers| && w.workers[k].Searching? {
        AcceptedUpdate(w.workers, k, AfterSearch(w, w.workers[k].item, w.workers[k].attempt));
      }
    case Swap(k) => if k < |w.workers| && w.workers[k].Holding? { SwapStepConserves(w, k); }
    case Mint(k) =>
      if k < |w.workers| && w.workers[k].Minting? {
        var item := w.workers[k].item;
        HeldAppend(w.rows, FreshRow(item, NextSeq(w.alloc, w.rows, w.high), Minted(w.minted), w.now));
        AcceptedUpdate(w.workers, k, Landed(item, Minted(w.minted)));
      }
  }

  lemma TrimStepConserves(w: World, step: Step)
    requires Conserved(w) && IsRewrite(step)
    ensures Conserved(Next(w, step))
  {
    StepIsRewrite(w, step);
    StepAges(w, step);
    RewrittenConserves(w, RewriteBy(w, step));
  }

  /** Attachment pointers are conserved in every run, whatever is swept and however stale a reading is. */
  lemma {:induction false} PointersAlwaysConserved(w: World, steps: seq<Step>)
    requires Ordered(w) && Conserved(w)
    ensures Ordered(Run(w, steps)) && Conserved(Run(w, steps))
    decreases |steps|
  {
    if steps != [] {
      OrderedStep(w, steps[0]);
      if steps[0].Arrive? || steps[0].Search? || steps[0].Swap? || steps[0].Mint? {
        WorkerStepConserves(w, steps[0]);
      } else if !steps[0].Tick? {
        TrimStepConserves(w, steps[0]);
      }
      PointersAlwaysConserved(Next(w, steps[0]), steps[1..]);
    }
  }
}
