// Admission of one more inbox event: payload ceilings, sliding-window rate ceilings, and the
// free tier's headroom limits.
module Limits {
  import opened Wrappers
  import opened EventTable

  datatype Settings = Settings(
    maxBodyBytes: int,
    maxAttachments: int,
    abusePerMinute: int,
    abusePerDay: int,
    freePerMinute: int,
    freePerDay: int)

  // Milliseconds, like the table's stamps.
  const MINUTE := 60 * 1000
  const DAY := 24 * 3600 * 1000

  /** What `billing.entitlements` says: free, subscribed, or unreadable. */
  datatype Standing = Free | Subscribed | Unreadable

  datatype Decision = Allow | Deny(reason: string, status: nat)

  /** Bytes of the UTF-8 encoding. */
  function Utf8Length(body: string): nat {
    if body == [] then 0
    else
      var n := body[0] as int;
      (if n < 0x80 then 1 else if n < 0x800 then 2 else if n < 0x1_0000 then 3 else 4) + Utf8Length(body[1..])
  }

  type Owners = map<string, string>

  predicate OwnedBy(owners: Owners, r: Row, account: string) {
    r.repo in owners && owners[r.repo] == account
  }

  /** `_account_event_count`: the account's rows created at or after `since`. */
  function AccountEventCount(rows: seq<Row>, owners: Owners, account: string, since: int): nat {
    if rows == [] then 0
    else
      var r := rows[|rows| - 1];
      AccountEventCount(rows[..|rows| - 1], owners, account, since)
        + if OwnedBy(owners, r, account) && r.createdAt >= since then 1 else 0
  }

  function CheckEventAdmission(settings: Settings, rows: seq<Row>, owners: Owners, account: Option<string>,
                               standing: Standing, body: string, attachments: nat, now: int): Decision
  {
    if account == None then Allow
    else if Utf8Length(body) > settings.maxBodyBytes then Deny("event_body_too_large", 413)
    else if attachments > settings.maxAttachments then Deny("too_many_attachments", 413)
    else
      var minute := AccountEventCount(rows, owners, account.value, now - MINUTE);
      if minute >= settings.abusePerMinute then Deny("abuse_event_rate", 429)
      else
        var day := AccountEventCount(rows, owners, account.value, now - DAY);
        if day >= settings.abusePerDay then Deny("abuse_daily_events", 429)
        else if standing != Free then Allow
        else if minute >= settings.freePerMinute then Deny("free_event_burst", 429)
        else if day >= settings.freePerDay then Deny("free_daily_events", 429)
        else Allow
  }

  /** Less payload and fewer events never turn a yes into a no, and neither does subscribing or a
      billing outage. */
  lemma AdmissionIsMonotone(settings: Settings, rows: seq<Row>, fewer: seq<Row>, owners: Owners,
                            account: Option<string>,
                            standing: Standing, better: Standing, body: string, shorter: string,
                            attachments: nat, less: nat, now: int)
    requires CheckEventAdmission(settings, rows, owners, account, standing, body, attachments, now) == Allow
    requires Utf8Length(shorter) <= Utf8Length(body) && less <= attachments
    requires account.Some? ==>
      forall since ::
        AccountEventCount(fewer, owners, account.value, since) <= AccountEventCount(rows, owners, account.value, since)
    requires standing != Free ==> better != Free
    ensures CheckEventAdmission(settings, fewer, owners, account, better, shorter, less, now) == Allow
  {
    if account.Some? {
      assert AccountEventCount(fewer, owners, account.value, now - MINUTE)
        <= AccountEventCount(rows, owners, account.value, now - MINUTE);
      assert AccountEventCount(fewer, owners, account.value, now - DAY)
        <= AccountEventCount(rows, owners, account.value, now - DAY);
    }
  }

  /** The shape and rate ceilings decide alike for every standing: a refusal for an abuse reason does
      not depend on billing, and without one only a readable free account can be refused. */
  lemma CeilingsIgnoreBilling(settings: Settings, rows: seq<Row>, owners: Owners, account: Option<string>,
                              standing: Standing, other: Standing, body: string, attachments: nat, now: int)
    ensures var d := CheckEventAdmission(settings, rows, owners, account, standing, body, attachments, now);
      var e := CheckEventAdmission(settings, rows, owners, account, other, body, attachments, now);
      d == e || (d.Deny? && standing == Free && (d.reason == "free_event_burst" || d.reason == "free_daily_events"))
             || (e.Deny? && other == Free && (e.reason == "free_event_burst" || e.reason == "free_daily_events"))
  {
  }
}
