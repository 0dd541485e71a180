// Which limit refuses an event: every decision of the admission check, on the rows themselves.
module LimitReasons {
  import opened Wrappers
  import opened EventTable
  import opened Limits

  // ---------------------------------------------------------------- what is counted

  /** The places of the account's events since a moment. */
  function EventsSince(rows: seq<Row>, owners: Owners, account: string, since: int): set<int> {
    set i: int | 0 <= i < |rows| && rows[i].repo in owners && owners[rows[i].repo] == account
                 && since <= rows[i].createdAt
  }

  lemma {:induction false} CountIsTheirNumber(rows: seq<Row>, owners: Owners, account: string, since: int)
    ensures AccountEventCount(rows, owners, account, since) == |EventsSince(rows, owners, account, since)|
  {
    if rows != [] {
      var n := |rows| - 1;
      var all, earlier :=
        EventsSince(rows, owners, account, since), EventsSince(rows[..n], owners, account, since);
      CountIsTheirNumber(rows[..n], owners, account, since);
      assert earlier == all - {n};
    } else {
      assert EventsSince(rows, owners, account, since) == {};
    }
  }

  /** A character takes one to four bytes, and a text takes those of its characters. */
  lemma BytesOf(text: string, c: char)
    ensures Utf8Length("") == 0
    ensures Utf8Length([c] + text) == Utf8Length(text)
      + if c as int <= 0x7F then 1 else if c as int <= 0x7FF then 2 else if c as int <= 0xFFFF then 3 else 4
  {
    assert ([c] + text)[1..] == text;
  }

  // ---------------------------------------------------------------- the decision

  /** The limits in the order they are checked: shape before rate, the ceilings of everyone before those of a free
      account. */
  datatype Limit = BodySize | AttachmentCount | AbusePerMinute | AbusePerDay | FreePerMinute | FreePerDay

  const ORDER := [BodySize, AttachmentCount, AbusePerMinute, AbusePerDay, FreePerMinute, FreePerDay]

  /** A request to admit one more event of an account. */
  datatype Request = Request(account: string, standing: Standing, body: string, attachments: nat)

  /** The event would break this limit: it is too big, or the minute or the day ending now is full. */
  predicate Breaks(limit: Limit, settings: Settings, rows: seq<Row>, owners: Owners, now: int, request: Request) {
    var minute := |EventsSince(rows, owners, request.account, now - 60_000)|;
    var day := |EventsSince(rows, owners, request.account, now - 86_400_000)|;
    match limit
    case BodySize => settings.maxBodyBytes < Utf8Length(request.body)
    case AttachmentCount => settings.maxAttachments < request.attachments
    case AbusePerMinute => settings.abusePerMinute <= minute
    case AbusePerDay => settings.abusePerDay <= day
    case FreePerMinute => request.standing == Free && settings.freePerMinute <= minute
    case FreePerDay => request.standing == Free && settings.freePerDay <= day
  }

  /** What the sender is told about each. */
  function Refusal(limit: Limit): Decision {
    match limit
    case BodySize => Deny("event_body_too_large", 413)
    case AttachmentCount => Deny("too_many_attachments", 413)
    case AbusePerMinute => Deny("abuse_event_rate", 429)
    case AbusePerDay => Deny("abuse_daily_events", 429)
    case FreePerMinute => Deny("free_event_burst", 429)
    case FreePerDay => Deny("free_daily_events", 429)
  }

  /** An event of an account is refused for the first limit it would break, and admitted if it breaks none. */
  lemma RefusedForTheFirst(settings: Settings, rows: seq<Row>, owners: Owners, now: int, request: Request, i: nat)
    requires i <= |ORDER| && forall j :: 0 <= j < i ==> !Breaks(ORDER[j], settings, rows, owners, now, request)
    requires i < |ORDER| ==> Breaks(ORDER[i], settings, rows, owners, now, request)
    ensures CheckEventAdmission(settings, rows, owners, Some(request.account), request.standing, request.body,
                                request.attachments, now) ==
      if i < |ORDER| then Refusal(ORDER[i]) else Allow
  {
    CountIsTheirNumber(rows, owners, request.account, now - 60_000);
    CountIsTheirNumber(rows, owners, request.account, now - 86_400_000);
    assert ORDER[0] == BodySize && ORDER[1] == AttachmentCount && ORDER[2] == AbusePerMinute;
    assert ORDER[3] == AbusePerDay && ORDER[4] == FreePerMinute && ORDER[5] == FreePerDay;
  }

  /** Without an account nothing is refused. */
  lemma NobodyIsAdmitted(settings: Settings, rows: seq<Row>, owners: Owners, standing: Standing, body: string,
                         attachments: nat, now: int)
    ensures CheckEventAdmission(settings, rows, owners, None, standing, body, attachments, now) == Allow
  {
  }
}
