// What responses, expiry, collection and the single-row writes do to the events, written out on the rows.
module EventEffects {
  import opened Wrappers
  import opened EventTable
  import opened AlbumMerge
  import Responses
  import EventStore

  // ---------------------------------------------------------------- a response post

  /** The event after it has taken the conversation of a post: its own if it has one. */
  ghost predicate TookConversation(r: Row, s: Row, conversation: Option<string>) {
    && s == r.(conversation := s.conversation)
    && (r.conversation.Some? && r.conversation.value != "" ==> s.conversation == r.conversation)
    && ((r.conversation == None || r.conversation == Some("")) && conversation.Some? && conversation.value != "" ==>
          s.conversation == conversation)
    && (conversation == None || conversation == Some("") ==> s.conversation == r.conversation)
  }

  /** Answered and emptied, with these stamps. */
  function Ended(r: Row, status: string, body: string, at: int): Row {
    r.(status := Responded, body := None, attachments := [],
       response := Response(Some(status), Some(|body|), Some(at - r.createdAt), Some(at), Some(Sha(body))))
  }

  /** A post, on the event that took its conversation: a noted one closes it silently once; a repeat of what a closed
      event said last is acknowledged; a forward that fails changes nothing; one to a closed event is sent and
      remembered, one that is not done is sent, and one that is done is sent and closes. */
  lemma PostIs(r: Row, s: Row, post: Responses.Post)
    requires TookConversation(r, s, post.conversation)
    ensures Responses.Answer(r, post) ==
      if post.status == "noted" then
        Responses.Outcome(if s.status == Responded then s else Ended(s, "noted", "", post.at), None, false)
      else if s.status == Responded && s.response.sha == Some(Sha(post.body)) then Responses.Outcome(s, None, false)
      else if !post.reachable then Responses.Outcome(s, None, true)
      else if s.status == Responded then
        Responses.Outcome(s.(response := Response(s.response.status, Some(|post.body|), s.response.ms, s.response.at,
                                                  Some(Sha(post.body)))), Some(post.body), false)
      else if post.status == "done" then
        Responses.Outcome(Ended(s, "done", post.body, post.at), Some(post.body), false)
      else Responses.Outcome(s, Some(post.body), false)
  {
  }

  // ---------------------------------------------------------------- rewrites of the table

  /** `at` are the places of the rows that stay; each is now what `to` makes of it. */
  ghost predicate RowsBecome(before: seq<Row>, after: seq<Row>, stays: Row -> bool, to: Row -> Row, at: seq<nat>) {
    && |at| == |after|
    && (forall j, k :: 0 <= j < k < |at| ==> at[j] < at[k])
    && (forall j :: 0 <= j < |at| ==> at[j] < |before| && after[j] == to(before[at[j]]))
    && (forall i :: 0 <= i < |before| ==> (i in at <==> stays(before[i])))
  }

  lemma PlacesGrow(before: seq<Row>, after: seq<Row>, stays: Row -> bool, to: Row -> Row, at: seq<nat>)
    requires before != [] && RowsBecome(before[..|before| - 1], after, stays, to, at)
    ensures var n := |before| - 1;
      if stays(before[n]) then RowsBecome(before, after + [to(before[n])], stays, to, at + [n])
      else RowsBecome(before, after, stays, to, at)
  {
    var n := |before| - 1;
    assert forall j :: 0 <= j < |at| ==> at[j] < n && before[..n][at[j]] == before[at[j]];
    assert forall i :: 0 <= i < n ==> before[..n][i] == before[i];
  }

  lemma {:induction false} RewriteIs(rows: seq<Row>, f: Row -> Option<Row>, stays: Row -> bool, to: Row -> Row)
    returns (at: seq<nat>)
    requires forall r :: f(r) == if stays(r) then Some(to(r)) else None
    ensures RowsBecome(rows, Rewrite(rows, f), stays, to, at)
  {
    at := [];
    if rows != [] {
      var n := |rows| - 1;
      at := RewriteIs(rows[..n], f, stays, to);
      PlacesGrow(rows, Rewrite(rows[..n], f), stays, to, at);
      if stays(rows[n]) { at := at + [n]; }
    }
  }

  function Everything(): Row -> bool {
    (r: Row) => true
  }

  /** An event nobody answered for longer than the horizon. */
  function Stale(now: int, horizon: int): Row -> Row {
    (r: Row) =>
      if r.status == Queued && now - r.createdAt > horizon then Ended(r, "expired", "", now) else r
  }

  /** Expiry answers exactly the queued events older than the horizon, and touches no other. */
  lemma ExpiryIs(w: World, horizon: nat) returns (at: seq<nat>)
    requires horizon > 0
    ensures RowsBecome(w.rows, Next(w, Expire(horizon)).rows, Everything(), Stale(w.now, horizon), at)
    ensures Next(w, Expire(0)) == w
  {
    at := RewriteIs(w.rows, ExpireStale(w.now, horizon), Everything(), Stale(w.now, horizon));
  }

  /** Ninety days. */
  function IsKept(now: int): Row -> bool {
    (r: Row) => now - r.createdAt <= 7_776_000_000
  }

  /** Two weeks: a queued event still holding content is emptied. */
  function Emptied(now: int): Row -> Row {
    (r: Row) =>
      if r.status == Queued && now - r.createdAt > 1_209_600_000 && r.body.Some?
      then r.(body := None, attachments := []) else r
  }

  /** A sweep deletes exactly the events older than ninety days and empties the queued ones older than two weeks. */
  lemma SweepIs(w: World) returns (at: seq<nat>)
    ensures RowsBecome(w.rows, Next(w, Sweep).rows, IsKept(w.now), Emptied(w.now), at)
    ensures var v := Next(w, Sweep);
      v.workers == w.workers && v.now == w.now && v.minted == w.minted && (w.alloc.Sequence? ==> v.high == w.high)
  {
    at := RewriteIs(w.rows, SweepOld(w.now), IsKept(w.now), Emptied(w.now));
  }

  /** A collection expires by the given horizon, or two days, unless that is not positive, and then sweeps. */
  lemma CollectionIs(w: World, horizon: Option<int>)
    ensures EventStore.Collected(w, horizon) ==
      var h := if horizon.Some? then horizon.value else 172_800_000;
      Next(if h > 0 then Next(w, Expire(h)) else w, Sweep)
  {
  }

  // ---------------------------------------------------------------- writes to one row

  /** The writes by `seq` change the row of that `seq` and no other. */
  lemma WritesAreTo(r: Row, at: nat, response: Response, sha: Sha, len: nat, conversation: string)
    ensures CloseAt(at, response)(r) ==
      Some(if r.seqNo == at then r.(status := Responded, response := response, body := None, attachments := []) else r)
    ensures ContinueAt(at, sha, len)(r) ==
      Some(if r.seqNo == at then r.(response := Response(r.response.status, Some(len), r.response.ms, r.response.at,
                                                         Some(sha))) else r)
    ensures AdoptConversationAt(at, conversation)(r) ==
      Some(if r.seqNo == at then r.(conversation := Some(conversation)) else r)
  {
  }
}
