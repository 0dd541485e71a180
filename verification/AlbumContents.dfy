// What an event says: whose captions and whose pictures the row of an event id holds, field by field
// for one statement and then over every run.
module AlbumContents {
  import opened Wrappers
  import opened EventTable
  import opened Text
  import opened AlbumMerge
  import opened AlbumGuarantees

  /** No caption: null, empty, or nothing but whitespace. */
  predicate NoText(body: Option<string>) {
    body.Some? ==> !Speaks(body.value)
  }

  lemma BlankIsNoText(body: Option<string>)
    ensures Blank(body.GetOr("")) <==> NoText(body)
  {
    BlankIsSilent(body.GetOr(""));
  }

  // ---------------------------------------------------------------- one statement, field by field

  /** The row is still as it was read. */
  ghost predicate IsCurrent(rows: seq<Row>, read: Row) {
    exists r :: r in rows && r.seqNo == read.seqNo && r.body == read.body && r.attachments == read.attachments
  }

  lemma CurrentIsMatched(rows: seq<Row>, read: Row)
    ensures StillCurrent(rows, read) <==> IsCurrent(rows, read)
  {
    if StillCurrent(rows, read) {
      var r :| r in rows && SwapMatches(r, read);
      assert r.seqNo == read.seqNo;
    }
    if IsCurrent(rows, read) {
      var r :| r in rows && r.seqNo == read.seqNo && r.body == read.body && r.attachments == read.attachments;
      assert SwapMatches(r, read);
    }
  }

  /** The row a merge writes: the event that was read, behind every other row, with the item's pictures after
      its own, and with the item's caption if it had none. */
  ghost predicate IsMerged(r: Row, read: Row, item: Item) {
    && r.id == read.id && r.repo == read.repo && r.source == read.source && r.group == read.group
    && r.chat == read.chat && r.status == read.status && r.createdAt == read.createdAt
    && r.response == read.response && r.conversation == read.conversation
    && r.attachments == read.attachments + item.attachments
    && (item.body != "" && NoText(read.body) ==> r.body == Some(item.body))
    && (item.body == "" || !NoText(read.body) ==> r.body == read.body)
  }

  /** A write transaction whose row is still current lands: the row that was read makes way for the merged one. */
  lemma MergeLands(w: World, k: nat)
    requires Ordered(w) && k < |w.workers| && w.workers[k].Holding? && IsCurrent(w.rows, w.workers[k].read)
    ensures var v, read, item := Next(w, Swap(k)), w.workers[k].read, w.workers[k].item;
      && v.workers == w.workers[k := Landed(item, read.id)]
      && v.rows != []
      && IsMerged(v.rows[|v.rows| - 1], read, item)
      && (forall s :: s in w.rows ==> s.seqNo < v.rows[|v.rows| - 1].seqNo)
      && (forall s :: s in v.rows[..|v.rows| - 1] <==> s in w.rows && s.seqNo != read.seqNo)
  {
    var read := w.workers[k].read;
    CurrentIsMatched(w.rows, read);
    NextSeqIsBehind(w);
    BlankIsNoText(read.body);
    forall s ensures s in Rewrite(w.rows, DeleteIfCurrent(read)) <==> s in w.rows && s.seqNo != read.seqNo {
      DeletedRowsAreOthers(w.rows, read, s);
    }
    assert Next(w, Swap(k)).rows[..|Next(w, Swap(k)).rows| - 1] == Rewrite(w.rows, DeleteIfCurrent(read));
  }

  /** One that finds its row changed writes no row and reads again, eleven times; then the item is its own event. */
  lemma MergeMisses(w: World, k: nat)
    requires k < |w.workers| && w.workers[k].Holding? && !IsCurrent(w.rows, w.workers[k].read)
    ensures var v, worker := Next(w, Swap(k)), w.workers[k];
      && v.rows == w.rows
      && v.workers == w.workers[k := if worker.attempt < 11 then Searching(worker.item, worker.attempt + 1)
                                     else Minting(worker.item)]
  {
    CurrentIsMatched(w.rows, w.workers[k].read);
  }

  /** A queued Telegram event of the item's repo, album and chat, no older than fifteen seconds. */
  ghost predicate IsOpen(r: Row, item: Item, now: int) {
    && item.album.Some? && r.group == item.album && r.repo == item.repo
    && r.status == Queued && r.source == "telegram" && now - r.createdAt <= 15_000
    && (item.chat.Some? ==> r.chat == item.chat)
  }

  /** A search finds the newest open event; it is over at once if the item has neither pictures nor a caption the
      event lacks, and an item without an open event is its own. */
  lemma SearchFinds(w: World, k: nat)
    requires Ascending(w.rows) && k < |w.workers| && w.workers[k].Searching?
    ensures var v, item, attempt := Next(w, Search(k)), w.workers[k].item, w.workers[k].attempt;
      && v.rows == w.rows
      && ((forall r :: r in w.rows ==> !IsOpen(r, item, w.now)) ==> v.workers == w.workers[k := Minting(item)])
      && forall r :: r in w.rows && IsOpen(r, item, w.now) && (forall s :: s in w.rows && IsOpen(s, item, w.now) ==>
                                                                  s.seqNo <= r.seqNo) ==>
           if item.attachments == [] && (item.body == "" || !NoText(r.body) || r.body == Some(item.body))
           then v.workers == w.workers[k := Landed(item, r.id)]
           else v.workers == w.workers[k := Holding(item, attempt, r)]
  {
    var item := w.workers[k].item;
    assert forall r :: IsOpen(r, item, w.now) <==> IsOpenFor(r, item, w.now);
    var found := OpenAlbum(w.rows, item, w.now);
    forall r | r in w.rows && IsOpen(r, item, w.now) && forall s :: s in w.rows && IsOpen(s, item, w.now) ==>
                                                                      s.seqNo <= r.seqNo
      ensures found == Some(r)
    {
      AscendingUnique(w.rows, r, found.value);
    }
    if found.Some? { BlankIsNoText(found.value.body); }
  }

  /** An item of its own becomes a queued event under a new id, behind every other row. */
  lemma MintAppends(w: World, k: nat)
    requires Ordered(w) && k < |w.workers| && w.workers[k].Minting?
    ensures var v, item := Next(w, Mint(k)), w.workers[k].item;
      && v.workers == w.workers[k := Landed(item, Minted(w.minted))] && v.minted == w.minted + 1
      && |v.rows| == |w.rows| + 1 && v.rows[..|w.rows|] == w.rows
      && var r := v.rows[|w.rows|];
         && r.id == Minted(w.minted) && r.repo == item.repo && r.source == item.source && r.chat == item.chat
         && r.group == (if item.album.Some? then item.album else item.group)
         && r.body == Some(item.body) && r.attachments == item.attachments
         && r.status == Queued && r.createdAt == w.now && r.conversation == None && r.response == UNANSWERED
         && forall s :: s in w.rows ==> s.seqNo < r.seqNo
  {
    NextSeqIsBehind(w);
  }

  // ---------------------------------------------------------------- over every run

  /** The pictures of every call that was told it landed under this id. */
  ghost function FoldedInto(workers: seq<Worker>, id: EventId): multiset<Pointer> {
    if workers == [] then multiset{}
    else
      FoldedInto(workers[..|workers| - 1], id) + PartOf(workers[|workers| - 1], id)
  }

  /** What one call adds. */
  ghost function PartOf(worker: Worker, id: EventId): multiset<Pointer> {
    if worker.Landed? && worker.id == id then multiset(worker.item.attachments) else multiset{}
  }

  lemma FoldedLast(workers: seq<Worker>, worker: Worker, id: EventId)
    ensures FoldedInto(workers + [worker], id) == FoldedInto(workers, id) + PartOf(worker, id)
  {
    assert (workers + [worker])[..|workers|] == workers;
  }

  lemma {:induction false} FoldedUpdate(workers: seq<Worker>, k: nat, to: Worker, id: EventId)
    requires k < |workers| && !workers[k].Landed?
    ensures FoldedInto(workers[k := to], id) == FoldedInto(workers, id) + PartOf(to, id)
  {
    var n := |workers| - 1;
    var init, last := workers[..n], workers[n];
    assert workers == init + [last];
    FoldedLast(init, last, id);
    if k == n {
      assert workers[k := to] == init + [to];
      FoldedLast(init, to, id);
    } else {
      FoldedUpdate(init, k, to, id);
      assert workers[k := to] == init[k := to] + [last];
      FoldedLast(init[k := to], last, id);
      Reorder(FoldedInto(init, id), PartOf(to, id), PartOf(last, id));
    }
  }

  lemma Reorder(a: multiset<Pointer>, b: multiset<Pointer>, c: multiset<Pointer>)
    ensures (a + b) + c == (a + c) + b
  {
  }

  lemma {:induction false} NothingFolded(workers: seq<Worker>, id: EventId)
    requires forall worker :: worker in workers && worker.Landed? ==> worker.id != id
    ensures FoldedInto(workers, id) == multiset{}
  {
    if workers != [] {
      assert workers[|workers| - 1] in workers;
      NothingFolded(workers[..|workers| - 1], id);
    }
  }

  /** An accepted item was folded into the event of this id. */
  ghost predicate IsPart(workers: seq<Worker>, item: Item, id: EventId) {
    Landed(item, id) in workers
  }

  /** A row whose content nobody has nulled holds exactly the pictures of its items, and the caption of one of them,
      which is blank only if all of them are. */
  ghost predicate SaysWhatItWasTold(r: Row, workers: seq<Worker>) {
    r.body.Some? ==>
      && multiset(r.attachments) == FoldedInto(workers, r.id)
      && (exists item :: IsPart(workers, item, r.id) && r.body == Some(item.body))
      && (NoText(r.body) ==> forall item :: IsPart(workers, item, r.id) ==> NoText(Some(item.body)))
  }

  ghost predicate ContentsOk(w: World) {
    && (forall r :: r in w.rows ==> SaysWhatItWasTold(r, w.workers))
    && (forall worker :: worker in w.workers && worker.Landed? ==> WasMinted(w, worker.id))
  }

  /** One call lands under `id`; rows of other ids are told nothing new. */
  lemma OthersToldNothing(r: Row, workers: seq<Worker>, k: nat, to: Worker)
    requires k < |workers| && !workers[k].Landed? && (to.Landed? ==> to.id != r.id)
    requires SaysWhatItWasTold(r, workers)
    ensures SaysWhatItWasTold(r, workers[k := to])
  {
    FoldedUpdate(workers, k, to, r.id);
    forall item ensures IsPart(workers[k := to], item, r.id) <==> IsPart(workers, item, r.id) {
      LandedAfter(workers, k, to, Landed(item, r.id));
    }
  }

  lemma LandedAfter(workers: seq<Worker>, k: nat, to: Worker, landed: Worker)
    requires k < |workers| && !workers[k].Landed? && landed.Landed?
    ensures landed in workers[k := to] <==> landed in workers || landed == to
  {
    if landed in workers {
      var i :| 0 <= i < |workers| && workers[i] == landed;
      assert workers[k := to][i] == landed;
    }
    if landed == to { assert workers[k := to][k] == landed; }
  }

  /** The row an item was folded into, `before` being what the event said until then. */
  lemma FoldedRowIsTold(before: Row, after: Row, workers: seq<Worker>, k: nat, item: Item)
    requires k < |workers| && !workers[k].Landed? && before.body.Some? && SaysWhatItWasTold(before, workers)
    requires after.id == before.id && after.attachments == before.attachments + item.attachments
    requires item.body != "" && NoText(before.body) ==> after.body == Some(item.body)
    requires item.body == "" || !NoText(before.body) ==> after.body == before.body
    ensures SaysWhatItWasTold(after, workers[k := Landed(item, before.id)])
  {
    var to := Landed(item, before.id);
    var told := workers[k := to];
    FoldedUpdate(workers, k, to, before.id);
    forall i ensures IsPart(told, i, before.id) <==> IsPart(workers, i, before.id) || i == item {
      LandedAfter(workers, k, to, Landed(i, before.id));
    }
    var first :| IsPart(workers, first, before.id) && before.body == Some(first.body);
    assert IsPart(told, first, after.id) && IsPart(told, item, after.id);
  }

  lemma WasMintedAfter(w: World, v: World, k: nat, to: Worker)
    requires k < |w.workers| && v.workers == w.workers[k := to] && w.minted <= v.minted
    requires forall worker :: worker in w.workers && worker.Landed? ==> WasMinted(w, worker.id)
    requires to.Landed? ==> WasMinted(v, to.id)
    ensures forall worker :: worker in v.workers && worker.Landed? ==> WasMinted(v, worker.id)
  {
    forall worker | worker in v.workers && worker.Landed? ensures WasMinted(v, worker.id) {
      var i :| 0 <= i < |v.workers| && v.workers[i] == worker;
      if i != k { assert w.workers[i] in w.workers; }
    }
  }

  lemma SearchKeepsContents(w: World, k: nat)
    requires Inv(w) && ContentsOk(w) && k < |w.workers| && w.workers[k].Searching?
    ensures ContentsOk(Next(w, Search(k)))
  {
    var item, found, v := w.workers[k].item, OpenAlbum(w.rows, w.workers[k].item, w.now), Next(w, Search(k));
    var to := v.workers[k];
    if found.Some? { assert RowOk(found.value, w.high, w.minted, w.now); }
    WasMintedAfter(w, v, k, to);
    forall r | r in w.rows ensures SaysWhatItWasTold(r, v.workers) {
      if to.Landed? && to.id == r.id {
        DistinctIdsUnique(w.rows, r, found.value);
        BlankIsNoText(r.body);
        FoldedRowIsTold(r, r, w.workers, k, item);
      } else {
        OthersToldNothing(r, w.workers, k, to);
      }
    }
  }

  lemma SwapKeepsContents(w: World, k: nat)
    requires Inv(w) && ContentsOk(w) && k < |w.workers| && w.workers[k].Holding?
    ensures ContentsOk(Next(w, Swap(k)))
  {
    var read, v := w.workers[k].read, Next(w, Swap(k));
    assert ReadOk(read, w.rows, w.high, w.minted, w.now);
    WasMintedAfter(w, v, k, v.workers[k]);
    if IsCurrent(w.rows, read) {
      LandingKeepsContents(w, k);
    } else {
      MergeMisses(w, k);
      forall r | r in v.rows ensures SaysWhatItWasTold(r, v.workers) {
        OthersToldNothing(r, w.workers, k, v.workers[k]);
      }
    }
  }

  /** The row that was read, as it stands in the table. */
  lemma ReadRow(w: World, read: Row) returns (before: Row)
    requires ReadOk(read, w.rows, w.high, w.minted, w.now) && IsCurrent(w.rows, read)
    ensures before in w.rows && before.seqNo == read.seqNo && before.id == read.id
    ensures before.body == read.body && before.attachments == read.attachments && before.body.Some?
  {
    before :| before in w.rows && before.seqNo == read.seqNo && before.body == read.body
              && before.attachments == read.attachments;
    assert SameEvent(before, read);
  }

  lemma MergedRowIsTold(w: World, k: nat, r: Row)
    requires Inv(w) && ContentsOk(w) && k < |w.workers| && w.workers[k].Holding? && IsCurrent(w.rows, w.workers[k].read)
    requires IsMerged(r, w.workers[k].read, w.workers[k].item)
    ensures SaysWhatItWasTold(r, w.workers[k := Landed(w.workers[k].item, w.workers[k].read.id)])
  {
    var read, item := w.workers[k].read, w.workers[k].item;
    assert ReadOk(read, w.rows, w.high, w.minted, w.now);
    var before := ReadRow(w, read);
    FoldedRowIsTold(before, r, w.workers, k, item);
  }

  lemma OtherRowIsTold(w: World, k: nat, r: Row)
    requires Inv(w) && ContentsOk(w) && k < |w.workers| && w.workers[k].Holding? && IsCurrent(w.rows, w.workers[k].read)
    requires r in w.rows && r.seqNo != w.workers[k].read.seqNo
    ensures SaysWhatItWasTold(r, w.workers[k := Landed(w.workers[k].item, w.workers[k].read.id)])
  {
    var read := w.workers[k].read;
    assert ReadOk(read, w.rows, w.high, w.minted, w.now);
    var before := ReadRow(w, read);
    if r.id == read.id { DistinctIdsUnique(w.rows, r, before); }
    OthersToldNothing(r, w.workers, k, Landed(w.workers[k].item, read.id));
  }

  lemma InvIsOrdered(w: World)
    requires Inv(w)
    ensures Ordered(w)
  {
    forall r | r in w.rows ensures r.seqNo <= w.high { assert RowOk(r, w.high, w.minted, w.now); }
  }

  lemma LandingKeepsContents(w: World, k: nat)
    requires Inv(w) && ContentsOk(w) && k < |w.workers| && w.workers[k].Holding? && IsCurrent(w.rows, w.workers[k].read)
    ensures forall r :: r in Next(w, Swap(k)).rows ==> SaysWhatItWasTold(r, Next(w, Swap(k)).workers)
  {
    InvIsOrdered(w);
    MergeLands(w, k);
    var v := Next(w, Swap(k));
    var n := |v.rows| - 1;
    MergedRowIsTold(w, k, v.rows[n]);
    forall r | r in v.rows[..n] ensures SaysWhatItWasTold(r, v.workers) { OtherRowIsTold(w, k, r); }
    assert v.rows == v.rows[..n] + [v.rows[n]];
  }

  lemma MintKeepsContents(w: World, k: nat)
    requires Inv(w) && ContentsOk(w) && k < |w.workers| && w.workers[k].Minting?
    ensures ContentsOk(Next(w, Mint(k)))
  {
    var item, v := w.workers[k].item, Next(w, Mint(k));
    var to, n := Landed(item, Minted(w.minted)), |w.rows|;
    MintAppends(w, k);
    WasMintedAfter(w, v, k, to);
    forall r | r in w.rows ensures SaysWhatItWasTold(r, v.workers) {
      assert RowOk(r, w.high, w.minted, w.now);
      OthersToldNothing(r, w.workers, k, to);
    }
    NewRowIsTold(v.rows[n], w.workers, k, to);
    assert v.rows == w.rows + [v.rows[n]];
  }

  lemma NewRowIsTold(r: Row, workers: seq<Worker>, k: nat, to: Worker)
    requires k < |workers| && !workers[k].Landed? && to.Landed? && to.id == r.id
    requires forall worker :: worker in workers && worker.Landed? ==> worker.id != r.id
    requires r.body == Some(to.item.body) && r.attachments == to.item.attachments
    ensures SaysWhatItWasTold(r, workers[k := to])
  {
    var told := workers[k := to];
    NothingFolded(workers, r.id);
    FoldedUpdate(workers, k, to, r.id);
    forall i ensures IsPart(told, i, r.id) <==> i == to.item {
      LandedAfter(workers, k, to, Landed(i, r.id));
    }
    assert IsPart(told, to.item, r.id);
  }

  /** Closes, continuations, adoptions, expiries and sweeps leave a row's content alone or null its body. */
  ghost predicate Nulls(f: Row -> Option<Row>) {
    forall r :: f(r).Some? ==>
      && f(r).value.id == r.id
      && (f(r).value.body == None || (f(r).value.body == r.body && f(r).value.attachments == r.attachments))
  }

  lemma StepNulls(w: World, step: Step)
    requires IsRewrite(step)
    ensures Nulls(RewriteBy(w, step))
  {
    var f := RewriteBy(w, step);
    forall r | f(r).Some?
      ensures f(r).value.id == r.id
      ensures f(r).value.body == None || (f(r).value.body == r.body && f(r).value.attachments == r.attachments)
    {
    }
  }

  lemma RewriteKeepsContents(w: World, f: Row -> Option<Row>)
    requires ContentsOk(w) && Nulls(f)
    ensures forall s :: s in Rewrite(w.rows, f) ==> SaysWhatItWasTold(s, w.workers)
  {
    forall s | s in Rewrite(w.rows, f) ensures SaysWhatItWasTold(s, w.workers) {
      RewriteOrigin(w.rows, f, s);
      var o :| o in w.rows && f(o) == Some(s);
      assert SaysWhatItWasTold(o, w.workers);
    }
  }

  lemma StepKeepsContents(w: World, step: Step)
    requires Inv(w) && ContentsOk(w)
    ensures ContentsOk(Next(w, step))
  {
    match step
    case Tick(_) =>
    case Arrive(item) => ArriveKeepsContents(w, item);
    case Search(k) => if k < |w.workers| && w.workers[k].Searching? { SearchKeepsContents(w, k); }
    case Swap(k) => if k < |w.workers| && w.workers[k].Holding? { SwapKeepsContents(w, k); }
    case Mint(k) => if k < |w.workers| && w.workers[k].Minting? { MintKeepsContents(w, k); }
    case _ => TrimKeepsContents(w, step);
  }

  lemma TrimKeepsContents(w: World, step: Step)
    requires ContentsOk(w)
    requires IsRewrite(step)
    ensures ContentsOk(Next(w, step))
  {
    StepIsRewrite(w, step);
    StepNulls(w, step);
    RewriteKeepsContents(w, RewriteBy(w, step));
  }

  lemma ArriveKeepsContents(w: World, item: Item)
    requires ContentsOk(w)
    ensures ContentsOk(Next(w, Arrive(item)))
  {
    var v := Next(w, Arrive(item));
    assert v.workers[..|w.workers|] == w.workers;
    forall r | r in w.rows ensures SaysWhatItWasTold(r, v.workers) {
      forall i ensures IsPart(v.workers, i, r.id) <==> IsPart(w.workers, i, r.id) {
        assert Landed(i, r.id) in v.workers <==> Landed(i, r.id) in w.workers;
      }
    }
  }

  /** Over every run from an empty table: an event whose content is still there holds exactly the pictures of the
      calls told they landed under its id, says what one of them said, and is silent only if all of them were. */
  lemma {:induction false} EventsSayWhatTheyWereTold(w: World, steps: seq<Step>)
    requires Inv(w) && ContentsOk(w) && SafeRun(w, steps)
    ensures ContentsOk(Run(w, steps))
    decreases |steps|
  {
    if steps != [] {
      StepKeepsContents(w, steps[0]);
      StepKeepsInv(w, steps[0]);
      EventsSayWhatTheyWereTold(Next(w, steps[0]), steps[1..]);
    }
  }

  lemma ToldFromTheStart(w: World, steps: seq<Step>)
    requires Init(w) && SafeRun(w, steps)
    ensures ContentsOk(Run(w, steps))
  {
    InitInv(w);
    EventsSayWhatTheyWereTold(w, steps);
  }

  // ---------------------------------------------------------------- a caption stays

  /** Whatever rows the event has say this or have been nulled. */
  ghost predicate SaysOnly(w: World, id: EventId, body: string) {
    WasMinted(w, id) && forall r :: r in w.rows && r.id == id ==> r.body == Some(body) || r.body == None
  }

  lemma RewriteKeepsCaption(w: World, f: Row -> Option<Row>, id: EventId, body: string)
    requires SaysOnly(w, id, body) && Nulls(f)
    ensures forall s :: s in Rewrite(w.rows, f) && s.id == id ==> s.body == Some(body) || s.body == None
  {
    forall s | s in Rewrite(w.rows, f) && s.id == id ensures s.body == Some(body) || s.body == None {
      RewriteOrigin(w.rows, f, s);
      var o :| o in w.rows && f(o) == Some(s);
    }
  }

  lemma SwapKeepsCaption(w: World, k: nat, id: EventId, body: string)
    requires Inv(w) && SaysOnly(w, id, body) && !NoText(Some(body)) && k < |w.workers| && w.workers[k].Holding?
    ensures SaysOnly(Next(w, Swap(k)), id, body)
  {
    var read, v := w.workers[k].read, Next(w, Swap(k));
    assert ReadOk(read, w.rows, w.high, w.minted, w.now);
    if IsCurrent(w.rows, read) {
      MergeLands(w, k);
      var n := |v.rows| - 1;
      var before :| before in w.rows && before.seqNo == read.seqNo && before.body == read.body;
      assert SameEvent(before, read);
      assert v.rows == v.rows[..n] + [v.rows[n]];
    } else {
      MergeMisses(w, k);
    }
  }

  lemma StepKeepsCaption(w: World, step: Step, id: EventId, body: string)
    requires Inv(w) && SaysOnly(w, id, body) && !NoText(Some(body))
    ensures SaysOnly(Next(w, step), id, body)
  {
    match step
    case Swap(k) => if k < |w.workers| && w.workers[k].Holding? { SwapKeepsCaption(w, k, id, body); }
    case Mint(k) => if k < |w.workers| && w.workers[k].Minting? { MintAppends(w, k); }
    case Tick(_) =>
    case Arrive(_) =>
    case Search(_) =>
    case _ => TrimKeepsCaption(w, step, id, body);
  }

  lemma TrimKeepsCaption(w: World, step: Step, id: EventId, body: string)
    requires SaysOnly(w, id, body)
    requires IsRewrite(step)
    ensures SaysOnly(Next(w, step), id, body)
  {
    StepIsRewrite(w, step);
    StepNulls(w, step);
    RewriteKeepsCaption(w, RewriteBy(w, step), id, body);
  }

  lemma {:induction false} RunKeepsCaption(w: World, steps: seq<Step>, id: EventId, body: string)
    requires Inv(w) && SafeRun(w, steps) && SaysOnly(w, id, body) && !NoText(Some(body))
    ensures SaysOnly(Run(w, steps), id, body)
    decreases |steps|
  {
    if steps != [] {
      StepKeepsCaption(w, steps[0], id, body);
      StepKeepsInv(w, steps[0]);
      RunKeepsCaption(Next(w, steps[0]), steps[1..], id, body);
    }
  }

  /** Once an event has a caption no merge ever gives it another; it goes only when the whole content goes. */
  lemma CaptionIsNeverReplaced(w: World, steps: seq<Step>, r: Row, s: Row)
    requires Inv(w) && SafeRun(w, steps) && r in w.rows && !NoText(r.body)
    requires s in Run(w, steps).rows && s.id == r.id
    ensures s.body == r.body || s.body == None
  {
    assert RowOk(r, w.high, w.minted, w.now);
    forall o | o in w.rows && o.id == r.id ensures o == r { DistinctIdsUnique(w.rows, o, r); }
    RunKeepsCaption(w, steps, r.id, r.body.value);
  }
}
