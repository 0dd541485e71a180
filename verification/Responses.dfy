// A daemon's response posts to one event: interim speech, the close, continuation speech, retries.
module Responses {
  import opened Wrappers
  import opened EventTable

  const DONE := "done"

  /** `reachable` is whether the platform accepts the forward, `at` the server clock. */
  datatype Post = Post(body: string, status: string, conversation: Option<string>, reachable: bool, at: int)

  /** `sent` is what the platform received; `failed` is the DeliveryError the daemon retries on. */
  datatype Outcome = Outcome(row: Row, sent: Option<string>, failed: bool)

  /** Conversation identity is set once. */
  function Adopt(r: Row, conversation: Option<string>): Row {
    if Truthy(conversation) && !Truthy(r.conversation) then r.(conversation := conversation) else r
  }

  function CloseNoted(r: Row, at: int): Row {
    if r.status == Responded then r else Closed(r, Retirement(r, at, RESPONSE_STATUS_NOTED))
  }

  function Answered(r: Row, body: string, status: string, at: int): Response {
    Response(Some(status), Some(|body|), Some(at - r.createdAt), Some(at), Some(Sha(body)))
  }

  /** What one post does to the event and to the platform. */
  function Answer(before: Row, post: Post): Outcome {
    var r := Adopt(before, post.conversation);
    if post.status == RESPONSE_STATUS_NOTED then Outcome(CloseNoted(r, post.at), None, false)
    else if r.status == Responded && r.response.sha == Some(Sha(post.body)) then Outcome(r, None, false)
    else if !post.reachable then Outcome(r, None, true)
    else if r.status == Responded then
      Outcome(r.(response := r.response.(sha := Some(Sha(post.body)), len := Some(|post.body|))), Some(post.body),
              false)
    else if post.status != DONE then Outcome(r, Some(post.body), false)
    else Outcome(Closed(r, Answered(r, post.body, post.status, post.at)), Some(post.body), false)
  }

  function After(r: Row, posts: seq<Post>): Row
    decreases |posts|
  {
    if posts == [] then r else After(Answer(r, posts[0]).row, posts[1..])
  }

  function Sent(r: Row, posts: seq<Post>): seq<string>
    decreases |posts|
  {
    if posts == [] then []
    else
      var o := Answer(r, posts[0]);
      (if o.sent.Some? then [o.sent.value] else []) + Sent(o.row, posts[1..])
  }

  // ---------------------------------------------------------------- the stream, said without the row

  predicate Speech(post: Post) {
    post.status != RESPONSE_STATUS_NOTED && post.reachable
  }

  predicate Closes(post: Post) {
    post.status == RESPONSE_STATUS_NOTED || (post.status == DONE && post.reachable)
  }

  /** The bodies of the posts that carry speech to a reachable platform. */
  function Spoken(posts: seq<Post>): seq<string> {
    if posts == [] then []
    else (if Speech(posts[0]) then [posts[0].body] else []) + Spoken(posts[1..])
  }

  /** The index of the post that closes a queued event, or the number of posts when none does. */
  function ClosingIndex(posts: seq<Post>): (c: nat)
    ensures c <= |posts|
    ensures forall i :: 0 <= i < c ==> !Closes(posts[i])
    ensures c < |posts| ==> Closes(posts[c])
  {
    if posts == [] || Closes(posts[0]) then 0
    else
      assert forall i :: 1 <= i < |posts| ==> posts[i] == posts[1..][i - 1];
      1 + ClosingIndex(posts[1..])
  }

  /** The body a close records for retry dedupe. */
  function RecordedBody(post: Post): string {
    if post.status == RESPONSE_STATUS_NOTED then "" else post.body
  }

  /** Adjacent repeats collapsed to one. */
  function Collapse(bodies: seq<string>): (c: seq<string>)
    ensures bodies != [] ==> c != [] && c[0] == bodies[0]
  {
    if |bodies| <= 1 then bodies
    else if bodies[0] == bodies[1] then Collapse(bodies[1..])
    else [bodies[0]] + Collapse(bodies[1..])
  }

  ghost function ExpectedStream(posts: seq<Post>): seq<string> {
    var c := ClosingIndex(posts);
    if c == |posts| then Spoken(posts)
    else Spoken(posts[..c + 1]) + Collapse([RecordedBody(posts[c])] + Spoken(posts[c + 1..]))[1..]
  }

  // ---------------------------------------------------------------- the laws

  /** A closed event forwards everything but repeats of the last recorded body. */
  lemma {:induction false} ClosedStream(r: Row, body: string, posts: seq<Post>)
    requires r.status == Responded && r.response.sha == Some(Sha(body))
    ensures Sent(r, posts) == Collapse([body] + Spoken(posts))[1..]
    decreases |posts|
  {
    if posts != [] {
      var post := posts[0];
      var o := Answer(r, post);
      if Speech(post) {
        var later := Spoken(posts[1..]);
        assert Spoken(posts) == [post.body] + later;
        assert ([body] + Spoken(posts))[1..] == [post.body] + later;
        ClosedStream(o.row, post.body, posts[1..]);
        var rest := Collapse([post.body] + later);
        assert rest == [post.body] + rest[1..];
      } else {
        assert Spoken(posts) == Spoken(posts[1..]);
        ClosedStream(o.row, body, posts[1..]);
      }
    }
  }

  lemma {:induction false} SpokenPrefix(posts: seq<Post>, c: nat)
    requires 0 < |posts| && c < |posts|
    ensures Spoken(posts[..c + 1]) == (if Speech(posts[0]) then [posts[0].body] else []) + Spoken(posts[1..][..c])
  {
    assert posts[..c + 1][1..] == posts[1..][..c];
  }

  /** A post that does not close the event only puts its own body in front. */
  lemma ExpectedAfterInterim(posts: seq<Post>)
    requires posts != [] && !Closes(posts[0])
    ensures ExpectedStream(posts) == (if Speech(posts[0]) then [posts[0].body] else []) + ExpectedStream(posts[1..])
  {
    if ClosingIndex(posts[1..]) < |posts[1..]| { ClosedLater(posts, ClosingIndex(posts[1..])); }
  }

  lemma ClosedLater(posts: seq<Post>, c: nat)
    requires posts != [] && !Closes(posts[0]) && c == ClosingIndex(posts[1..]) < |posts[1..]|
    ensures ExpectedStream(posts) == (if Speech(posts[0]) then [posts[0].body] else []) + ExpectedStream(posts[1..])
  {
    var rest := posts[1..];
    var later := Collapse([RecordedBody(rest[c])] + Spoken(rest[c + 1..]))[1..];
    assert ClosingIndex(posts) == c + 1 && posts[c + 1] == rest[c] && posts[c + 2..] == rest[c + 1..];
    SpokenPrefix(posts, c + 1);
    Regroup(if Speech(posts[0]) then [posts[0].body] else [], Spoken(rest[..c + 1]), later);
  }

  lemma Regroup(a: seq<string>, b: seq<string>, c: seq<string>)
    ensures (a + b) + c == a + (b + c)
  {
  }

  lemma ExpectedAtClose(posts: seq<Post>)
    requires posts != [] && Closes(posts[0])
    ensures ExpectedStream(posts) ==
            (if Speech(posts[0]) then [posts[0].body] else [])
              + Collapse([RecordedBody(posts[0])] + Spoken(posts[1..]))[1..]
  {
    SpokenPrefix(posts, 0);
    assert Spoken(posts[1..][..0]) == [];
  }

  /** The platform receives every spoken post up to the close, then the later ones with repeats collapsed. */
  lemma {:induction false} ResponseStream(r: Row, posts: seq<Post>)
    requires r.status == Queued
    ensures Sent(r, posts) == ExpectedStream(posts)
    decreases |posts|
  {
    if posts != [] {
      var o := Answer(r, posts[0]);
      if Closes(posts[0]) {
        ClosedStream(o.row, RecordedBody(posts[0]), posts[1..]);
        ExpectedAtClose(posts);
      } else {
        ResponseStream(o.row, posts[1..]);
        ExpectedAfterInterim(posts);
      }
    }
  }

  /** An event closes exactly at its closing post: the response stamped there is never restamped or reopened. */
  lemma {:induction false} ClosesExactlyOnce(r: Row, posts: seq<Post>)
    requires r.status == Queued
    ensures var c := ClosingIndex(posts);
            var end := After(r, posts);
            && (end.status == Responded <==> c < |posts|)
            && (c == |posts| ==> end.body == r.body && end.attachments == r.attachments && end.response == r.response)
            && (c < |posts| ==>
                  && end.body == None && end.attachments == []
                  && end.response.status == Some(posts[c].status)
                  && end.response.at == Some(posts[c].at)
                  && end.response.ms == Some(posts[c].at - r.createdAt))
    decreases |posts|
  {
    if posts != [] {
      var o := Answer(r, posts[0]);
      if Closes(posts[0]) {
        ClosedKeeps(o.row, posts[1..]);
      } else {
        ClosesExactlyOnce(o.row, posts[1..]);
      }
    }
  }

  lemma {:induction false} ClosedKeeps(r: Row, posts: seq<Post>)
    requires r.status == Responded
    ensures var end := After(r, posts);
            && end.status == Responded && end.body == r.body && end.attachments == r.attachments
            && end.response.status == r.response.status
            && end.response.at == r.response.at
            && end.response.ms == r.response.ms
    decreases |posts|
  {
    if posts != [] { ClosedKeeps(Answer(r, posts[0]).row, posts[1..]); }
  }

  /** The event has no conversation yet, and post i is the first that names one. */
  ghost predicate FirstToReport(r: Row, posts: seq<Post>, i: int) {
    && 0 <= i < |posts| && !Truthy(r.conversation) && Truthy(posts[i].conversation)
    && (forall j :: 0 <= j < i ==> !Truthy(posts[j].conversation))
  }

  /** Once an event has a conversation no post changes it; otherwise the first one reported is adopted, failed forwards
      included. */
  lemma {:induction false} ConversationSetOnce(r: Row, posts: seq<Post>)
    ensures Truthy(r.conversation) ==> After(r, posts).conversation == r.conversation
    ensures forall i | FirstToReport(r, posts, i) :: After(r, posts).conversation == posts[i].conversation
    decreases |posts|
  {
    if posts != [] {
      var o := Answer(r, posts[0]);
      ConversationSetOnce(o.row, posts[1..]);
      forall i | FirstToReport(r, posts, i)
        ensures After(r, posts).conversation == posts[i].conversation
      {
        if i > 0 {
          assert !Truthy(posts[0].conversation);
          assert posts[1..][i - 1] == posts[i];
          forall j | 0 <= j < i - 1 ensures !Truthy(posts[1..][j].conversation) {
            assert posts[1..][j] == posts[j + 1];
          }
          assert FirstToReport(o.row, posts[1..], i - 1);
        }
      }
    }
  }

  /** A failed forward leaves the event as open and as answered as it was, so the retry starts from the same place. */
  lemma FailedForwardIsRetriable(r: Row, post: Post)
    requires Answer(r, post).failed
    ensures var next := Answer(r, post).row;
            && next.status == r.status && next.body == r.body && next.attachments == r.attachments
            && next.response == r.response
            && Answer(r, post).sent == None
            && Answer(next, post.(reachable := true)).sent == Some(post.body)
  {
  }

  /** A retry of the last forwarded body after the close is acknowledged and not repeated. */
  lemma RetryIsQuiet(r: Row, post: Post, retry: Post)
    requires Speech(post) && (post.status == DONE || r.status == Responded)
    requires retry.body == post.body && retry.status != RESPONSE_STATUS_NOTED
    ensures var once := Answer(r, post).row;
            Answer(once, retry).sent == None && !Answer(once, retry).failed
              && Answer(once, retry).row.response == once.response
  {
  }
}
