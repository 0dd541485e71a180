// The `events` table: rows in `seq` order, the two ways a backend hands out the next `seq`,
// and the row-wise rewrites (close, expire, sweep, delete) that every writer is built from.
module EventTable {
  import opened Wrappers

  /** An attachment pointer, never the bytes. */
  datatype Pointer = Pointer(fileId: string)

  /** `ids.event_id()` is opaque and fresh; a merge parks its replacement under a placeholder. */
  datatype EventId = Minted(n: nat) | Placeholder(n: nat)

  datatype Status = Queued | Responded

  /** sha256 of a body, taken as injective. */
  datatype Sha = Sha(of: string)

  datatype Response = Response(status: Option<string>, len: Option<nat>, ms: Option<int>, at: Option<int>,
                               sha: Option<Sha>)

  const UNANSWERED := Response(None, None, None, None, None)

  datatype Row = Row(
    seqNo: nat,
    id: EventId,
    repo: string,
    source: string,
    group: Option<string>,
    chat: Option<string>,
    body: Option<string>,
    attachments: seq<Pointer>,
    status: Status,
    createdAt: int,
    response: Response,
    conversation: Option<string>)

  // Durations in milliseconds.
  const MERGE_WINDOW := 15_000
  const BODY_TTL := 14 * 24 * 3600 * 1000
  const ROW_TTL := 90 * 24 * 3600 * 1000

  /** SQLite hands out `max(seq) + 1`; a Postgres sequence never hands a value out twice. */
  datatype Allocator = MaxPlusOne | Sequence

  // ---------------------------------------------------------------- order

  ghost predicate Ascending(rows: seq<Row>) {
    forall i, j :: 0 <= i < j < |rows| ==> rows[i].seqNo < rows[j].seqNo
  }

  ghost predicate DistinctIds(rows: seq<Row>) {
    forall i, j :: 0 <= i < j < |rows| ==> rows[i].id != rows[j].id
  }

  /** `max(seq)` of a table kept in `seq` order, 0 when it is empty. */
  function MaxSeq(rows: seq<Row>): nat {
    if rows == [] then 0 else rows[|rows| - 1].seqNo
  }

  /** The `seq` the next insert receives; `high` is the last value ever dispensed. */
  function NextSeq(alloc: Allocator, rows: seq<Row>, high: nat): nat {
    match alloc
    case Sequence => high + 1
    case MaxPlusOne => MaxSeq(rows) + 1
  }

  // ---------------------------------------------------------------- rewrites

  /** Rewrites every row in place, deleting those mapped to None. */
  function Rewrite(rows: seq<Row>, f: Row -> Option<Row>): seq<Row> {
    if rows == [] then []
    else
      var init := Rewrite(rows[..|rows| - 1], f);
      match f(rows[|rows| - 1])
      case Some(r) => init + [r]
      case None => init
  }

  /** What stays the same about a row however it is rewritten. */
  ghost predicate SameEvent(r: Row, s: Row) {
    && r.seqNo == s.seqNo && r.id == s.id && r.repo == s.repo && r.source == s.source
    && r.group == s.group && r.chat == s.chat && r.createdAt == s.createdAt
  }

  /** A rewrite that keeps each event's identity and only ever takes content away. */
  ghost predicate Trims(f: Row -> Option<Row>) {
    forall r :: f(r).Some? ==>
      && SameEvent(r, f(r).value)
      && (f(r).value.body == r.body || f(r).value.body == None)
      && (f(r).value.attachments == r.attachments || f(r).value.attachments == [])
      && (r.status == Responded ==> f(r).value.status == Responded)
      && (f(r).value.status == Responded && r.status == Queued ==>
          f(r).value.body == None && f(r).value.attachments == [])
  }

  lemma RewriteOrigin(rows: seq<Row>, f: Row -> Option<Row>, r: Row)
    requires r in Rewrite(rows, f)
    ensures exists o :: o in rows && f(o) == Some(r)
  {
    var last := rows[|rows| - 1];
    if f(last) == Some(r) {
      assert last in rows;
    } else {
      RewriteOrigin(rows[..|rows| - 1], f, r);
    }
  }

  lemma RewriteImage(rows: seq<Row>, f: Row -> Option<Row>, o: Row)
    requires o in rows && f(o).Some?
    ensures f(o).value in Rewrite(rows, f)
  {
    var n := |rows| - 1;
    if rows[n] != o {
      assert o in rows[..n];
      RewriteImage(rows[..n], f, o);
    }
  }

  lemma {:induction false} RewriteAscends(rows: seq<Row>, f: Row -> Option<Row>)
    requires Ascending(rows) && Trims(f)
    ensures Ascending(Rewrite(rows, f))
  {
    if rows != [] {
      var n := |rows| - 1;
      RewriteAscends(rows[..n], f);
      forall r | r in Rewrite(rows[..n], f) ensures r.seqNo < rows[n].seqNo {
        RewriteOrigin(rows[..n], f, r);
        var o :| o in rows[..n] && f(o) == Some(r);
        var i :| 0 <= i < n && rows[i] == o;
        assert SameEvent(o, f(o).value);
      }
      assert f(rows[n]).Some? ==> SameEvent(rows[n], f(rows[n]).value);
    }
  }

  lemma {:induction false} RewriteKeepsIdsApart(rows: seq<Row>, f: Row -> Option<Row>)
    requires DistinctIds(rows) && Trims(f)
    ensures DistinctIds(Rewrite(rows, f))
  {
    if rows != [] {
      var n := |rows| - 1;
      RewriteKeepsIdsApart(rows[..n], f);
      forall r | r in Rewrite(rows[..n], f) ensures r.id != rows[n].id {
        RewriteOrigin(rows[..n], f, r);
        var o :| o in rows[..n] && f(o) == Some(r);
        var i :| 0 <= i < n && rows[i] == o;
        assert SameEvent(o, f(o).value);
      }
      assert f(rows[n]).Some? ==> SameEvent(rows[n], f(rows[n]).value);
    }
  }

  // ---------------------------------------------------------------- contents

  /** Every attachment pointer the table holds, with multiplicity. */
  function Held(rows: seq<Row>): multiset<Pointer> {
    if rows == [] then multiset{}
    else Held(rows[..|rows| - 1]) + multiset(rows[|rows| - 1].attachments)
  }

  /** The pointers a rewrite takes away. */
  function Shed(rows: seq<Row>, f: Row -> Option<Row>): multiset<Pointer> {
    if rows == [] then multiset{}
    else
      Shed(rows[..|rows| - 1], f) +
      (match f(rows[|rows| - 1])
       case None => multiset(rows[|rows| - 1].attachments)
       case Some(r) => multiset(rows[|rows| - 1].attachments) - multiset(r.attachments))
  }

  lemma HeldAppend(rows: seq<Row>, r: Row)
    ensures Held(rows + [r]) == Held(rows) + multiset(r.attachments)
  {
    assert (rows + [r])[..|rows|] == rows;
  }

  /** A rewrite neither duplicates nor invents a pointer: what it does not keep, it sheds. */
  lemma {:induction false} RewriteConserves(rows: seq<Row>, f: Row -> Option<Row>)
    requires Trims(f)
    ensures Held(rows) == Held(Rewrite(rows, f)) + Shed(rows, f)
  {
    if rows != [] {
      var n := |rows| - 1;
      RewriteConserves(rows[..n], f);
      if f(rows[n]).Some? {
        HeldAppend(Rewrite(rows[..n], f), f(rows[n]).value);
      }
    }
  }

  lemma {:induction false} RewriteAppend(rows: seq<Row>, r: Row, f: Row -> Option<Row>)
    ensures Rewrite(rows + [r], f) == Rewrite(rows, f) + (if f(r).Some? then [f(r).value] else [])
  {
    assert (rows + [r])[..|rows|] == rows;
  }

  lemma ShedAppend(rows: seq<Row>, r: Row, f: Row -> Option<Row>)
    ensures Shed(rows + [r], f) == Shed(rows, f) + Shed([r], f)
  {
    assert (rows + [r])[..|rows|] == rows;
    assert [r][..0] == [];
  }

  lemma {:induction false} RewriteConcat(a: seq<Row>, b: seq<Row>, f: Row -> Option<Row>)
    ensures Rewrite(a + b, f) == Rewrite(a, f) + Rewrite(b, f)
    ensures Shed(a + b, f) == Shed(a, f) + Shed(b, f)
  {
    if b == [] {
      assert a + b == a;
    } else {
      var n := |b| - 1;
      assert a + b == (a + b[..n]) + [b[n]];
      assert b == b[..n] + [b[n]];
      RewriteConcat(a, b[..n], f);
      RewriteAppend(a + b[..n], b[n], f);
      RewriteAppend(b[..n], b[n], f);
      ShedAppend(a + b[..n], b[n], f);
      ShedAppend(b[..n], b[n], f);
    }
  }

  lemma RewriteSplit(a: seq<Row>, o: Row, b: seq<Row>, f: Row -> Option<Row>, to: Row)
    requires f(o) == Some(to)
    requires forall r :: r in a ==> f(r) == Some(r)
    requires forall r :: r in b ==> f(r) == Some(r)
    ensures Rewrite((a + [o]) + b, f) == (a + [to]) + b
    ensures Shed((a + [o]) + b, f) == multiset(o.attachments) - multiset(to.attachments)
  {
    RewriteConcat(a + [o], b, f);
    RewriteConcat(a, [o], f);
    RewriteIdentity(a, f);
    RewriteIdentity(b, f);
    assert [o][..0] == [];
  }

  lemma SplitAt(rows: seq<Row>, at: nat, to: Row)
    requires at < |rows|
    ensures rows == (rows[..at] + [rows[at]]) + rows[at + 1..]
    ensures rows[at := to] == (rows[..at] + [to]) + rows[at + 1..]
  {
  }

  lemma OthersKept(rows: seq<Row>, f: Row -> Option<Row>, at: nat)
    requires Ascending(rows) && at < |rows|
    requires forall r: Row :: r.seqNo != rows[at].seqNo ==> f(r) == Some(r)
    ensures forall r :: r in rows[..at] ==> f(r) == Some(r)
    ensures forall r :: r in rows[at + 1..] ==> f(r) == Some(r)
  {
    forall r | r in rows[..at] ensures f(r) == Some(r) {
      var i :| 0 <= i < at && rows[i] == r;
    }
    forall r | r in rows[at + 1..] ensures f(r) == Some(r) {
      var i :| at + 1 <= i < |rows| && rows[i] == r;
    }
  }

  /** A rewrite that moves one row is an assignment to that row. */
  lemma RewriteOne(rows: seq<Row>, f: Row -> Option<Row>, at: nat, to: Row)
    requires Ascending(rows)
    requires at < |rows| && f(rows[at]) == Some(to)
    requires forall r: Row :: r.seqNo != rows[at].seqNo ==> f(r) == Some(r)
    ensures Rewrite(rows, f) == rows[at := to]
    ensures Shed(rows, f) == multiset(rows[at].attachments) - multiset(to.attachments)
  {
    OthersKept(rows, f, at);
    RewriteSplit(rows[..at], rows[at], rows[at + 1..], f, to);
    SplitAt(rows, at, to);
  }

  /** Two rewrites in a row are one. */
  lemma {:induction false} RewriteTwice(rows: seq<Row>, f: Row -> Option<Row>, g: Row -> Option<Row>,
                                        both: Row -> Option<Row>)
    requires forall r :: both(r) == (match f(r) case None => None case Some(s) => g(s))
    ensures Rewrite(Rewrite(rows, f), g) == Rewrite(rows, both)
  {
    if rows != [] {
      var n := |rows| - 1;
      RewriteTwice(rows[..n], f, g, both);
      if f(rows[n]).Some? { RewriteAppend(Rewrite(rows[..n], f), f(rows[n]).value, g); }
    }
  }

  lemma RewriteIdentity(rows: seq<Row>, f: Row -> Option<Row>)
    requires forall r :: r in rows ==> f(r) == Some(r)
    ensures Rewrite(rows, f) == rows
    ensures Shed(rows, f) == multiset{}
  {
    if rows != [] {
      var n := |rows| - 1;
      assert rows[n] in rows;
      forall r | r in rows[..n] ensures r in rows {}
      RewriteIdentity(rows[..n], f);
      assert rows == rows[..n] + [rows[n]];
    }
  }

  // ---------------------------------------------------------------- row rewrites

  /** The shape every close shares: response stamped, body and pointers nulled. */
  function Closed(r: Row, response: Response): Row {
    r.(response := response, status := Responded, body := None, attachments := [])
  }

  /** UPDATE ... WHERE seq = at, writing a terminal response. */
  function CloseAt(at: nat, response: Response): Row -> Option<Row> {
    (r: Row) => if r.seqNo == at then Some(Closed(r, response)) else Some(r)
  }

  /** Continuation speech into a closed event: only the dedupe handle moves. */
  function ContinueAt(at: nat, sha: Sha, len: nat): Row -> Option<Row> {
    (r: Row) => if r.seqNo == at then Some(r.(response := r.response.(sha := Some(sha), len := Some(len)))) else Some(r)
  }

  function AdoptConversationAt(at: nat, conversation: string): Row -> Option<Row> {
    (r: Row) => if r.seqNo == at then Some(r.(conversation := Some(conversation))) else Some(r)
  }

  const RESPONSE_STATUS_NOTED := "noted"
  const RESPONSE_STATUS_EXPIRED := "expired"

  /** How `_close_noted` and `_expire_stale_queued` stamp the row they retire. */
  function Retirement(r: Row, now: int, status: string): Response {
    Response(Some(status), Some(0), Some(now - r.createdAt), Some(now), Some(Sha("")))
  }

  function ExpireRow(r: Row, now: int, horizon: int): Row {
    if r.status == Queued && r.createdAt < now - horizon then
      Closed(r, Retirement(r, now, RESPONSE_STATUS_EXPIRED))
    else r
  }

  function ExpireStale(now: int, horizon: int): Row -> Option<Row> {
    (r: Row) => Some(ExpireRow(r, now, horizon))
  }

  /** One `gc_events` sweep: rows past the row TTL go, queued bodies past the body TTL are nulled. */
  function SweepRow(r: Row, now: int): Option<Row> {
    if r.createdAt < now - ROW_TTL then None
    else if r.status == Queued && r.createdAt < now - BODY_TTL && r.body.Some? then
      Some(r.(body := None, attachments := []))
    else Some(r)
  }

  function DeleteOld(now: int): Row -> Option<Row> {
    (r: Row) => if r.createdAt < now - ROW_TTL then None else Some(r)
  }

  function NullOldBodies(now: int): Row -> Option<Row> {
    (r: Row) =>
      if r.status == Queued && r.createdAt < now - BODY_TTL && r.body.Some?
        then Some(r.(body := None, attachments := []))
      else Some(r)
  }

  function SweepOld(now: int): Row -> Option<Row> {
    (r: Row) => SweepRow(r, now)
  }

  /** DELETE ... WHERE seq = ? AND body IS ? AND attachments_json = ?. Status is not tested. */
  predicate SwapMatches(r: Row, read: Row) {
    r.seqNo == read.seqNo && r.body == read.body && r.attachments == read.attachments
  }

  function DeleteIfCurrent(read: Row): Row -> Option<Row> {
    (r: Row) => if SwapMatches(r, read) then None else Some(r)
  }
}
