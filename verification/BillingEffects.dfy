// What each Stripe event does to the billing tables, written out on the tables themselves.
module BillingEffects {
  import opened Wrappers
  import opened Billing
  import opened BillingLedger
  import opened BillingStore

  // ---------------------------------------------------------------- whom an object means

  /** The metadata names an account that exists. */
  predicate IsKnown(s: State, meta: Option<string>) {
    meta.Some? && meta.value != "" && meta.value in s.accounts
  }

  predicate HasCustomer(s: State, a: string, customer: Option<string>) {
    customer.Some? && customer.value != "" && a in s.accounts && s.accounts[a].customer == customer
  }

  /** The account the metadata names, else the only one with the customer id. */
  predicate Means(s: State, meta: Option<string>, customer: Option<string>, a: string) {
    if IsKnown(s, meta) then a == meta.value
    else HasCustomer(s, a, customer) && forall b :: b in s.accounts && HasCustomer(s, b, customer) ==> b == a
  }

  predicate MeansNobody(s: State, meta: Option<string>, customer: Option<string>) {
    !IsKnown(s, meta) && forall a :: a in s.accounts ==> !HasCustomer(s, a, customer)
  }

  predicate IsAmbiguous(s: State, meta: Option<string>, customer: Option<string>) {
    && !IsKnown(s, meta)
    && exists a, b :: a in s.accounts && b in s.accounts && a != b && HasCustomer(s, a, customer)
                      && HasCustomer(s, b, customer)
  }

  lemma TwoElements(xs: set<string>)
    requires |xs| > 1
    ensures exists a, b :: a in xs && b in xs && a != b
  {
    var a :| a in xs;
    assert |xs - {a}| > 0;
    var b :| b in xs - {a};
  }

  /** The lookup gives the account that is meant, nothing if nobody is, and raises if two could be. */
  lemma LookupIs(s: State, meta: Option<string>, customer: Option<string>)
    ensures forall a :: AccountForEvent(s, meta, customer) == Found(a) <==> Means(s, meta, customer, a)
    ensures AccountForEvent(s, meta, customer) == Missing <==> MeansNobody(s, meta, customer)
    ensures AccountForEvent(s, meta, customer) == Ambiguous <==> IsAmbiguous(s, meta, customer)
  {
    if !IsKnown(s, meta) && Truthy(customer) {
      var owners := CustomerAccounts(s, customer.value);
      assert forall a :: a in owners <==> HasCustomer(s, a, customer);
      if |owners| == 1 { SoleElement(owners); } else if |owners| > 1 { TwoElements(owners); }
      if a, b :| a in owners && b in owners && a != b { assert {a, b} <= owners; AtLeastTwo(owners, a, b); }
    }
  }

  lemma AtLeastTwo(xs: set<string>, a: string, b: string)
    requires a in xs && b in xs && a != b
    ensures |xs| > 1
  {
    assert {a, b} <= xs && |xs - {a, b}| + 2 == |xs|;
  }

  /** The subscription an invoice names: its own field, an expanded object deciding even when it has no id, else the
      parent's; `None` and the empty string are no subscription. */
  predicate NamesSubscription(obj: Object, key: string) {
    && key != ""
    && (obj.subscription == Id(key)
        || obj.subscription == Expanded(Some(key))
        || ((obj.subscription == Absent || obj.subscription == Id(""))
            && (obj.parentSubscription == Id(key) || obj.parentSubscription == Expanded(Some(key)))))
  }

  lemma InvoiceNames(obj: Object)
    ensures forall key :: NamesSubscription(obj, key) <==> key != "" && InvoiceSubscriptionId(obj) == Some(key)
    ensures !Truthy(InvoiceSubscriptionId(obj)) <==> forall key :: !NamesSubscription(obj, key)
  {
    var named := InvoiceSubscriptionId(obj);
    if Truthy(named) { assert NamesSubscription(obj, named.value); }
  }

  // ---------------------------------------------------------------- what changes hands

  ghost predicate IsLiveIn(subs: map<string, Subscription>, a: string) {
    exists ref :: ref in subs && subs[ref].account == a && subs[ref].status != Canceled
  }

  /** Subscribed exactly while some subscription of the account has not been canceled. */
  ghost function TierIn(subs: map<string, Subscription>, a: string): Tier {
    if IsLiveIn(subs, a) then Subscribed else Free
  }

  predicate IsAllowance(b: Bucket, a: string) {
    b.account == a && b.source == SubscriberMonthly && b.remaining > 0
  }

  /** The account's monthly allowances are spent, and every other bucket is as it was. */
  ghost predicate AllowanceGone(before: seq<Bucket>, after: seq<Bucket>, a: string) {
    && |after| == |before|
    && forall i :: 0 <= i < |before| ==>
         after[i] == if IsAllowance(before[i], a) then before[i].(remaining := 0) else before[i]
  }

  /** One ledger row for each allowance, of what it had left, in order, and no other. */
  ghost predicate OneEntryEach(drains: seq<Entry>, before: seq<Bucket>, a: string, at: seq<nat>) {
    && |drains| == |at|
    && (forall j, k :: 0 <= j < k < |at| ==> at[j] < at[k])
    && (forall j :: 0 <= j < |at| ==> at[j] < |before|)
    && (forall i :: 0 <= i < |before| ==> (IsAllowance(before[i], a) <==> i in at))
    && (forall j :: 0 <= j < |at| ==>
          drains[j] == Entry(a, "expire_subscriber_monthly", -before[at[j]].remaining, Some(before[at[j]].id)))
  }

  lemma {:induction false} DrainRows(before: seq<Bucket>, a: string) returns (at: seq<nat>)
    ensures OneEntryEach(DrainEntries(before, a, SubscriberMonthly, EXPIRE_MONTHLY), before, a, at)
  {
    at := [];
    if before != [] {
      var n := |before| - 1;
      at := DrainRows(before[..n], a);
      if IsAllowance(before[n], a) { at := at + [n]; }
    }
  }

  /** No bucket has this Stripe reference. */
  predicate IsNewRef(buckets: seq<Bucket>, ref: Option<string>) {
    ref.Some? ==> forall b :: b in buckets ==> b.ref != ref
  }

  lemma NewRef(buckets: seq<Bucket>, ref: string)
    ensures BucketAt(buckets, ref) == None <==> IsNewRef(buckets, Some(ref))
  {
    if BucketAt(buckets, ref).Some? { assert buckets[BucketAt(buckets, ref).value] in buckets; }
  }

  // ---------------------------------------------------------------- the guard

  /** Some account that has been erased is within reach of an id the object carries. */
  ghost predicate ReachesErased(s: State, obj: Object) {
    exists a :: a in s.accounts && s.accounts[a].deletedAt.Some? && IsReached(s, obj, a)
  }

  ghost predicate IsReached(s: State, obj: Object, a: string) {
    || (a != "" && obj.metaAccount == Some(a))
    || HasCustomer(s, a, obj.customer)
    || (exists key :: key in s.subs && s.subs[key].account == a && key != ""
                      && (obj.id == Some(key) || NamesSubscription(obj, key)))
    || (exists b :: b in s.buckets && b.account == a && b.ref.Some? && b.ref.value != ""
                    && (b.ref == obj.paymentIntent || b.ref == obj.id))
  }

  lemma TouchedIsReached(s: State, obj: Object, a: string)
    requires a in s.accounts
    ensures a in AccountsTouched(s, obj) <==> IsReached(s, obj, a)
  {
    InvoiceNames(obj);
  }

  /** An event is dropped exactly when it reaches an erased account; otherwise its handler runs. */
  lemma DroppedIffReachesErased(settings: Settings, s: State, kind: Kind, obj: Object)
    requires kind != Unhandled
    ensures ReachesErased(s, obj) ==> HandleStripeEvent(settings, s, kind, obj) == Applied(s, "account-deleted")
    ensures !ReachesErased(s, obj) ==>
      HandleStripeEvent(settings, s, kind, obj) == Handler(settings, s, kind, obj)
  {
    forall a | a in s.accounts ensures a in AccountsTouched(s, obj) <==> IsReached(s, obj, a) {
      TouchedIsReached(s, obj, a);
    }
  }

  /** An event of no known type changes nothing. */
  lemma UnknownIsIgnored(settings: Settings, s: State, obj: Object)
    ensures HandleStripeEvent(settings, s, Unhandled, obj) == Applied(s, "ignored")
  {
  }

  // ---------------------------------------------------------------- cancellation

  /** `customer.subscription.deleted`: the row is canceled, the monthly allowance of its account is spent with one
      ledger row for each bucket, and the tier follows the subscriptions that are left. */
  lemma CancellationEffect(settings: Settings, s: State, obj: Object) returns (drains: seq<Entry>, at: seq<nat>)
    requires !ReachesErased(s, obj)
    ensures var key, r := obj.id.GetOr(""), HandleStripeEvent(settings, s, SubscriptionDeleted, obj);
      if key !in s.subs then r == Applied(s, "no-subscription")
      else
        var a, subs := s.subs[key].account, s.subs[key := s.subs[key].(status := Canceled)];
        if a !in s.accounts then r == Applied(s.(subs := subs), "no-account")
        else
          && OneEntryEach(drains, s.buckets, a, at) && r.Applied? && r.disposition == "subscription-canceled"
          && AllowanceGone(s.buckets, r.state.buckets, a)
          && r.state.subs == subs && r.state.nextBucket == s.nextBucket
          && r.state.accounts == s.accounts[a := s.accounts[a].(tier := TierIn(subs, a))]
          && r.state.ledger == s.ledger
               + [Entry(a, if s.subs[key].cancelAtPeriodEnd then "subscription_ended"
                           else "subscription_canceled_immediate", 0, None)]
               + drains
  {
    DroppedIffReachesErased(settings, s, SubscriptionDeleted, obj);
    drains, at := [], [];
    var key := obj.id.GetOr("");
    if key in s.subs && s.subs[key].account in s.accounts {
      drains := DrainEntries(s.buckets, s.subs[key].account, SubscriberMonthly, EXPIRE_MONTHLY);
      at := DrainRows(s.buckets, s.subs[key].account);
    }
  }

  // ---------------------------------------------------------------- creation and update

  /** The status map. */
  predicate MapsTo(status: string, to: SubscriptionStatus) {
    match to
    case Active => status in {"active", "trialing"}
    case PastDue => status == "past_due"
    case Canceled => status !in {"active", "trialing", "past_due"}
  }

  /** The row an event leaves: its owner stays who it was, a missing period end keeps the old one. */
  ghost predicate RowFiled(s: State, a: string, obj: Object, row: Subscription) {
    var key := obj.id.GetOr("");
    && row.account == (if key in s.subs then s.subs[key].account else a)
    && MapsTo(obj.status, row.status)
    && row.cancelAtPeriodEnd == obj.cancelAtPeriodEnd
    && row.periodEnd == (if obj.periodEnd.Some? then obj.periodEnd
                         else if key in s.subs then s.subs[key].periodEnd else None)
  }

  /** The audit rows of an upsert: started when it is new, cancel-pending when an old row has just become so. */
  function UpsertAudit(s: State, a: string, obj: Object): seq<Entry> {
    var key := obj.id.GetOr("");
    if key !in s.subs then [Entry(a, "subscription_started", 0, None)]
    else if obj.cancelAtPeriodEnd && !s.subs[key].cancelAtPeriodEnd then
      [Entry(a, "subscription_canceled_at_period_end", 0, None)]
    else []
  }

  lemma RowIsFiled(s: State, a: string, obj: Object)
    ensures var key, t := obj.id.GetOr(""), FiledSubscription(s, a, obj);
      && key in t.subs && RowFiled(s, a, obj, t.subs[key]) && t.subs == s.subs[key := t.subs[key]]
      && t == State(s.accounts, t.subs, s.buckets, s.ledger + UpsertAudit(s, a, obj), s.nextBucket)
  {
  }

  /** `customer.subscription.created` and `.updated`: one row is written, for the account that is meant. */
  lemma UpsertEffect(settings: Settings, s: State, kind: Kind, obj: Object, a: string)
    requires kind == SubscriptionCreated || kind == SubscriptionUpdated
    requires !ReachesErased(s, obj) && Means(s, obj.metaAccount, obj.customer, a)
    ensures var key, r := obj.id.GetOr(""), HandleStripeEvent(settings, s, kind, obj);
      && r.Applied? && r.disposition == (if key in s.subs then "subscription-updated" else "subscription-created")
      && key in r.state.subs && RowFiled(s, a, obj, r.state.subs[key])
      && r.state.subs == s.subs[key := r.state.subs[key]]
      && r.state.buckets == s.buckets && r.state.nextBucket == s.nextBucket
      && r.state.ledger == s.ledger + UpsertAudit(s, a, obj)
      && r.state.accounts == s.accounts[a := s.accounts[a].(
           customer := if s.accounts[a].customer == None && obj.customer.Some? && obj.customer.value != ""
                       then obj.customer else s.accounts[a].customer,
           tier := TierIn(r.state.subs, a))]
  {
    DroppedIffReachesErased(settings, s, kind, obj);
    LookupIs(s, obj.metaAccount, obj.customer);
    assert AccountForEvent(s, obj.metaAccount, obj.customer) == Found(a);
    RowIsFiled(s, a, obj);
  }

  /** Without an account, or with two, the events that look one up change nothing. */
  lemma NobodyMeant(settings: Settings, s: State, kind: Kind, obj: Object)
    requires kind == SubscriptionCreated || kind == SubscriptionUpdated || kind == CheckoutCompleted
    requires !ReachesErased(s, obj)
    ensures MeansNobody(s, obj.metaAccount, obj.customer) ==>
      HandleStripeEvent(settings, s, kind, obj) == Applied(s, "no-account")
    ensures IsAmbiguous(s, obj.metaAccount, obj.customer) ==> HandleStripeEvent(settings, s, kind, obj) == Raised
  {
    DroppedIffReachesErased(settings, s, kind, obj);
    LookupIs(s, obj.metaAccount, obj.customer);
  }

  // ---------------------------------------------------------------- checkout

  /** The credits a top-up buys: what its metadata says, else a credit for each cent paid. */
  predicate Buys(obj: Object, credits: int) {
    && (obj.metaCredits > 0 ==> credits == obj.metaCredits)
    && (obj.metaCredits <= 0 && obj.amountTotal.Some? ==> credits == obj.amountTotal.value)
    && (obj.metaCredits <= 0 && obj.amountTotal == None ==> credits == obj.metaCredits)
  }

  /** The reference of a top-up: the payment intent, else the session. */
  predicate PaidBy(obj: Object, ref: Option<string>) {
    if obj.paymentIntent.Some? && obj.paymentIntent.value != "" then ref == obj.paymentIntent else ref == obj.id
  }

  /** `checkout.session.completed`: an account without a customer gets the object's, and a top-up becomes one purchased
      bucket, full, without an end, with its ledger row, unless its reference is known. */
  lemma CheckoutEffect(settings: Settings, s: State, obj: Object, a: string, credits: int, ref: Option<string>)
    requires !ReachesErased(s, obj) && Means(s, obj.metaAccount, obj.customer, a)
    requires Buys(obj, credits) && PaidBy(obj, ref)
    ensures var r := HandleStripeEvent(settings, s, CheckoutCompleted, obj);
      var accounts := s.accounts[a := s.accounts[a].(
          customer := if (s.accounts[a].customer == None || s.accounts[a].customer == Some(""))
                         && obj.customer.Some? && obj.customer.value != ""
                      then obj.customer else s.accounts[a].customer)];
      if !obj.isTopup then r == Applied(s.(accounts := accounts), "customer-attached")
      else if credits <= 0 then r == Applied(s.(accounts := accounts), "topup-no-credits")
      else if IsNewRef(s.buckets, ref) then
        r == Applied(State(accounts, s.subs,
                           s.buckets + [Bucket(s.nextBucket, a, Purchased, credits, credits, None, ref)],
                           s.ledger + [Entry(a, "topup", credits, Some(s.nextBucket))], s.nextBucket + 1),
                     "topup-granted")
      else if ref != Some("") then r == Applied(s.(accounts := accounts), "topup-duplicate")
      else r == Raised
  {
    DroppedIffReachesErased(settings, s, CheckoutCompleted, obj);
    LookupIs(s, obj.metaAccount, obj.customer);
    assert AccountForEvent(s, obj.metaAccount, obj.customer) == Found(a);
    assert s.accounts[a := s.accounts[a]] == s.accounts;
    if ref.Some? { NewRef(s.buckets, ref.value); }
  }

  // ---------------------------------------------------------------- a paid invoice

  /** The account an invoice pays for: that of its subscription row, else the customer's. */
  predicate PaysFor(s: State, key: string, obj: Object, a: string) {
    if key in s.subs then a == s.subs[key].account && a in s.accounts else Means(s, None, obj.customer, a)
  }

  /** The subscriptions after a payment: one that was past due is active again. */
  function Redeemed(s: State, key: string): map<string, Subscription> {
    if key in s.subs && s.subs[key].status == PastDue then s.subs[key := s.subs[key].(status := Active)] else s.subs
  }

  /** How long the new allowance lasts: to the end of the invoice line, else to the end the row had. */
  predicate LastsUntil(s: State, key: string, obj: Object, end: Option<int>) {
    && (obj.linePeriodEnd.Some? ==> end == obj.linePeriodEnd)
    && (obj.linePeriodEnd == None && key in s.subs ==> end == s.subs[key].periodEnd)
    && (obj.linePeriodEnd == None && key !in s.subs ==> end == None)
  }

  /** `invoice.paid` of a subscription, not seen before: dunning ends, the old allowance goes, and one full bucket of
      the configured credits takes its place, with the invoice for its reference. */
  lemma InvoicePaidEffect(settings: Settings, s: State, obj: Object, key: string, a: string, end: Option<int>)
    returns (drains: seq<Entry>, at: seq<nat>)
    requires !ReachesErased(s, obj) && NamesSubscription(obj, key) && PaysFor(s, key, obj, a)
    requires LastsUntil(s, key, obj, end) && IsNewRef(s.buckets, obj.id)
    ensures var r := HandleStripeEvent(settings, s, InvoicePaid, obj);
      && OneEntryEach(drains, s.buckets, a, at) && r.Applied? && r.disposition == "grant-issued"
      && r.state.subs == Redeemed(s, key) && r.state.nextBucket == s.nextBucket + 1
      && |r.state.buckets| == |s.buckets| + 1
      && AllowanceGone(s.buckets, r.state.buckets[..|s.buckets|], a)
      && r.state.buckets[|s.buckets|] ==
           Bucket(s.nextBucket, a, SubscriberMonthly, settings.monthlyCredits, settings.monthlyCredits, end, obj.id)
      && r.state.accounts == (if Redeemed(s, key) == s.subs then s.accounts
                              else s.accounts[a := s.accounts[a].(tier := TierIn(Redeemed(s, key), a))])
      && r.state.ledger == s.ledger
           + (if obj.billingReason == "subscription_cycle" then [Entry(a, "subscription_renewed", 0, None)] else [])
           + drains + [Entry(a, "grant_subscriber_monthly", settings.monthlyCredits, Some(s.nextBucket))]
  {
    DroppedIffReachesErased(settings, s, InvoicePaid, obj);
    InvoiceNames(obj);
    LookupIs(s, None, obj.customer);
    assert InvoiceAccount(s, key, obj) == Found(a);
    drains := DrainEntries(s.buckets, a, SubscriberMonthly, EXPIRE_MONTHLY);
    at := DrainRows(s.buckets, a);
    RenewalIs(s, key, a, obj);
    InvoiceReplaces(settings, s, obj, key, a, end);
  }

  /** What a payment does before the credits move. */
  ghost predicate IsRenewal(s: State, t: State, key: string, a: string, obj: Object)
    requires a in s.accounts
  {
    && t.subs == Redeemed(s, key) && t.buckets == s.buckets && t.nextBucket == s.nextBucket
    && t.accounts == (if Redeemed(s, key) == s.subs then s.accounts
                      else s.accounts[a := s.accounts[a].(tier := TierIn(Redeemed(s, key), a))])
    && t.ledger == s.ledger
         + if obj.billingReason == "subscription_cycle" then [Entry(a, "subscription_renewed", 0, None)] else []
  }

  lemma RenewalIs(s: State, key: string, a: string, obj: Object)
    requires a in s.accounts
    ensures IsRenewal(s, Renewed(s, key, a, obj), key, a, obj)
  {
    if key in s.subs && s.subs[key].status == PastDue { assert Redeemed(s, key)[key].status == Active; }
  }

  /** The old allowance of an account gone and the new one granted. */
  function Replaced(settings: Settings, t: State, a: string, end: Option<int>, ref: Option<string>): State {
    t.(buckets := Drained(t.buckets, a, SubscriberMonthly)
         + [Bucket(t.nextBucket, a, SubscriberMonthly, settings.monthlyCredits, settings.monthlyCredits, end, ref)],
       ledger := t.ledger + DrainEntries(t.buckets, a, SubscriberMonthly, EXPIRE_MONTHLY)
         + [Entry(a, "grant_subscriber_monthly", settings.monthlyCredits, Some(t.nextBucket))],
       nextBucket := t.nextBucket + 1)
  }

  lemma AllowanceReplaced(settings: Settings, t: State, a: string, end: Option<int>, ref: Option<string>)
    requires IsNewRef(t.buckets, ref)
    ensures GrantMonthly(settings, ExpireBuckets(t, a, SubscriberMonthly, EXPIRE_MONTHLY), a, end, ref) ==
      Granted(Replaced(settings, t, a, end, ref))
  {
    if ref.Some? { InvoiceRefIsNew(t, Drained(t.buckets, a, SubscriberMonthly), ref.value); }
  }

  lemma InvoiceReplaces(settings: Settings, s: State, obj: Object, key: string, a: string, end: Option<int>)
    requires a in s.accounts && InvoiceSubscriptionId(obj) == Some(key) && key != ""
    requires InvoiceAccount(s, key, obj) == Found(a)
    requires LastsUntil(s, key, obj, end) && IsNewRef(s.buckets, obj.id)
    ensures OnInvoicePaid(settings, s, obj) ==
      Applied(Replaced(settings, Renewed(s, key, a, obj), a, end, obj.id), "grant-issued")
  {
    assert Renewed(s, key, a, obj).buckets == s.buckets && AllowanceEnd(s, key, obj) == end;
    AllowanceReplaced(settings, Renewed(s, key, a, obj), a, end, obj.id);
    if obj.id.Some? { NewRef(s.buckets, obj.id.value); }
  }

  lemma InvoiceRefIsNew(s: State, drained: seq<Bucket>, ref: string)
    requires IsNewRef(s.buckets, Some(ref)) && |drained| == |s.buckets|
    requires forall i :: 0 <= i < |drained| ==> drained[i].ref == s.buckets[i].ref
    ensures BucketAt(s.buckets, ref) == None && BucketAt(drained, ref) == None
  {
    NewRef(s.buckets, ref);
    NewRef(drained, ref);
    forall b | b in drained ensures b.ref != Some(ref) {
      var i :| 0 <= i < |drained| && drained[i] == b;
      assert s.buckets[i] in s.buckets;
    }
  }

  /** An invoice that names no subscription, means nobody or two, or has been seen, moves nothing. */
  lemma InvoiceMovesNothing(settings: Settings, s: State, obj: Object, key: string)
    requires !ReachesErased(s, obj)
    ensures var r := HandleStripeEvent(settings, s, InvoicePaid, obj);
      && ((forall k :: !NamesSubscription(obj, k)) ==> r == Applied(s, "ignored"))
      && (NamesSubscription(obj, key) && key in s.subs && s.subs[key].account !in s.accounts ==>
            r == Applied(s, "no-account"))
      && (NamesSubscription(obj, key) && key !in s.subs && MeansNobody(s, None, obj.customer) ==>
            r == Applied(s, "no-account"))
      && (NamesSubscription(obj, key) && key !in s.subs && IsAmbiguous(s, None, obj.customer) ==> r == Raised)
      && (NamesSubscription(obj, key) && (exists a :: a in s.accounts && PaysFor(s, key, obj, a))
          && !IsNewRef(s.buckets, obj.id) ==>
            r == if obj.id == Some("") then Raised else Applied(s, "grant-duplicate"))
  {
    DroppedIffReachesErased(settings, s, InvoicePaid, obj);
    InvoiceNames(obj);
    LookupIs(s, None, obj.customer);
    if NamesSubscription(obj, key) && !IsNewRef(s.buckets, obj.id)
      && exists a :: a in s.accounts && PaysFor(s, key, obj, a) {
      var a :| a in s.accounts && PaysFor(s, key, obj, a);
      assert InvoiceAccount(s, key, obj) == Found(a);
      SeenInvoice(settings, s, obj, key, a);
    }
  }

  lemma SeenInvoice(settings: Settings, s: State, obj: Object, key: string, a: string)
    requires InvoiceSubscriptionId(obj) == Some(key) && key != "" && InvoiceAccount(s, key, obj) == Found(a)
    requires a in s.accounts && !IsNewRef(s.buckets, obj.id)
    ensures OnInvoicePaid(settings, s, obj) == if obj.id == Some("") then Raised else Applied(s, "grant-duplicate")
  {
    NewRef(s.buckets, obj.id.value);
    var at := BucketAt(s.buckets, obj.id.value).value;
    var drained := Drained(s.buckets, a, SubscriberMonthly);
    assert drained[at] in drained && drained[at].ref == obj.id;
    NewRef(drained, obj.id.value);
  }

  // ---------------------------------------------------------------- a failed payment

  /** `invoice.payment_failed`: an active subscription becomes past due; no tier, no credit and no other row moves. */
  lemma PaymentFailedEffect(settings: Settings, s: State, obj: Object, key: string)
    requires !ReachesErased(s, obj) && NamesSubscription(obj, key)
    ensures var r := HandleStripeEvent(settings, s, InvoicePaymentFailed, obj);
      if key !in s.subs then r == Applied(s, "no-subscription")
      else
        var a := s.subs[key].account;
        && r.Applied? && r.disposition == "past-due"
        && r.state.subs == (if s.subs[key].status == Active then s.subs[key := s.subs[key].(status := PastDue)]
                            else s.subs)
        && r.state.ledger == s.ledger
             + (if a in s.accounts then [Entry(a, "subscription_payment_failed", 0, None)] else [])
        && r.state.accounts == s.accounts && r.state.buckets == s.buckets && r.state.nextBucket == s.nextBucket
  {
    DroppedIffReachesErased(settings, s, InvoicePaymentFailed, obj);
    InvoiceNames(obj);
  }

  /** One that names no subscription is ignored. */
  lemma FailedWithoutSubscription(settings: Settings, s: State, obj: Object)
    requires !ReachesErased(s, obj) && forall key :: !NamesSubscription(obj, key)
    ensures HandleStripeEvent(settings, s, InvoicePaymentFailed, obj) == Applied(s, "ignored")
  {
    DroppedIffReachesErased(settings, s, InvoicePaymentFailed, obj);
    InvoiceNames(obj);
  }

  // ---------------------------------------------------------------- a refund

  /** `charge.refunded` of the bucket of this payment: it loses the amount, or all it has left if that is less, never
      gains, and the ledger has one row of what was taken. */
  lemma RefundEffect(settings: Settings, s: State, obj: Object, i: nat)
    requires !ReachesErased(s, obj) && i < |s.buckets| && obj.paymentIntent.Some? && obj.paymentIntent.value != ""
    requires forall j :: 0 <= j < |s.buckets| ==> (s.buckets[j].ref == obj.paymentIntent <==> j == i)
    ensures var r, b := HandleStripeEvent(settings, s, ChargeRefunded, obj), s.buckets[i];
      var taken := if obj.amountRefunded <= b.remaining then obj.amountRefunded else b.remaining;
      && r.Applied? && r.disposition == "refund-applied"
      && r.state.buckets == s.buckets[i := b.(remaining := if taken > 0 then b.remaining - taken else b.remaining)]
      && r.state.ledger == s.ledger + [Entry(b.account, "refund_purchased", -taken, Some(b.id))]
      && r.state.accounts == s.accounts && r.state.subs == s.subs && r.state.nextBucket == s.nextBucket
  {
    DroppedIffReachesErased(settings, s, ChargeRefunded, obj);
    var at := BucketAt(s.buckets, obj.paymentIntent.value);
    assert at == Some(i) by { assert s.buckets[i] in s.buckets; }
  }

  /** One without a payment, or of a payment no bucket came from, moves nothing. */
  lemma RefundOfNothing(settings: Settings, s: State, obj: Object)
    requires !ReachesErased(s, obj)
    ensures obj.paymentIntent == None || obj.paymentIntent == Some("") ==>
      HandleStripeEvent(settings, s, ChargeRefunded, obj) == Applied(s, "ignored")
    ensures obj.paymentIntent.Some? && obj.paymentIntent.value != "" && IsNewRef(s.buckets, obj.paymentIntent) ==>
      HandleStripeEvent(settings, s, ChargeRefunded, obj) == Applied(s, "no-bucket")
  {
    DroppedIffReachesErased(settings, s, ChargeRefunded, obj);
    if Truthy(obj.paymentIntent) { NewRef(s.buckets, obj.paymentIntent.value); }
  }

  // ---------------------------------------------------------------- the other steps

  /** A sign-up makes a free account under a new id; a checkout the application opens gives a living account without a
      customer the one it created. */
  lemma AccountStepIs(settings: Settings, s: State, a: string, customer: string)
    ensures Next(settings, s, SignUp(a)) ==
      s.(accounts := if a in s.accounts then s.accounts else s.accounts[a := Account(Free, None, None)])
    ensures Next(settings, s, Checkout(a, customer)) ==
      s.(accounts := if a in s.accounts && s.accounts[a].deletedAt == None
                        && (s.accounts[a].customer == None || s.accounts[a].customer == Some(""))
                     then s.accounts[a := s.accounts[a].(customer := Some(customer))] else s.accounts)
  {
  }

  /** The buckets of other accounts, in order, `at` being the places they stood. */
  ghost predicate BucketsOfOthers(before: seq<Bucket>, after: seq<Bucket>, a: string, at: seq<nat>) {
    && |at| == |after|
    && (forall j, k :: 0 <= j < k < |at| ==> at[j] < at[k])
    && (forall j :: 0 <= j < |at| ==> at[j] < |before| && after[j] == before[at[j]])
    && (forall i :: 0 <= i < |before| ==> (i in at <==> before[i].account != a))
  }

  lemma {:induction false} BucketsLeft(before: seq<Bucket>, a: string) returns (at: seq<nat>)
    ensures BucketsOfOthers(before, WithoutAccount(before, a), a, at)
  {
    at := [];
    if before != [] {
      var n := |before| - 1;
      at := BucketsLeft(before[..n], a);
      if before[n].account != a { at := at + [n]; }
    }
  }

  /** An erasure leaves a tombstone, the other accounts' rows, and the whole ledger, with no reference to a bucket that
      is gone. */
  lemma ErasureIs(settings: Settings, s: State, a: string, now: int) returns (at: seq<nat>)
    requires a in s.accounts
    ensures var t := Next(settings, s, Delete(a, now));
      && t.accounts == s.accounts[a := Account(Free, None, Some(now))] && t.nextBucket == s.nextBucket
      && (forall ref :: ref in t.subs <==> ref in s.subs && s.subs[ref].account != a)
      && (forall ref :: ref in t.subs ==> t.subs[ref] == s.subs[ref])
      && BucketsOfOthers(s.buckets, t.buckets, a, at)
      && |t.ledger| == |s.ledger|
      && (forall i :: 0 <= i < |s.ledger| ==>
            t.ledger[i] == if exists b :: b in s.buckets && b.account == a && s.ledger[i].bucket == Some(b.id)
                           then s.ledger[i].(bucket := None) else s.ledger[i])
  {
    at := BucketsLeft(s.buckets, a);
  }

  // ---------------------------------------------------------------- the wallet

  /** What a bucket puts into a wallet: all it has left, until the moment it expires. */
  function Spendable(b: Bucket, account: string, now: int): int {
    if b.account == account && b.remaining > 0 && (b.expiresAt.Some? ==> now < b.expiresAt.value) then b.remaining
    else 0
  }

  /** An empty table is an empty wallet, and each bucket adds to the total and to its own source what it can spend;
      what was ever purchased counts what purchased buckets were granted. */
  lemma WalletGrowsBy(buckets: seq<Bucket>, b: Bucket, account: string, source: Source, now: int)
    ensures WalletTotal([], account, now) == SourceTotal([], account, source, now) == 0
    ensures PurchasedLifetime([], account) == 0
    ensures WalletTotal(buckets + [b], account, now) == WalletTotal(buckets, account, now) + Spendable(b, account, now)
    ensures SourceTotal(buckets + [b], account, source, now) ==
      SourceTotal(buckets, account, source, now) + if b.source == source then Spendable(b, account, now) else 0
    ensures PurchasedLifetime(buckets + [b], account) ==
      PurchasedLifetime(buckets, account) + if b.account == account && b.source == Purchased then b.granted else 0
  {
    assert (buckets + [b])[..|buckets|] == buckets;
  }

  /** The total is the sum of the balances by source. */
  lemma {:induction false} TotalIsTheSum(buckets: seq<Bucket>, account: string, now: int)
    ensures WalletTotal(buckets, account, now) ==
      SourceTotal(buckets, account, SubscriberMonthly, now) + SourceTotal(buckets, account, Purchased, now)
      + SourceTotal(buckets, account, FreeSignupBonus, now) + SourceTotal(buckets, account, Promotional, now)
  {
    if buckets != [] {
      var n := |buckets| - 1;
      TotalIsTheSum(buckets[..n], account, now);
      assert buckets == buckets[..n] + [buckets[n]];
      WalletGrowsBy(buckets[..n], buckets[n], account, buckets[n].source, now);
    }
  }
}
