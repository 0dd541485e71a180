// The tombstone guard: which accounts a handler can write, and why an erased account stays erased.
module BillingGuard {
  import opened Wrappers
  import opened Billing
  import opened BillingLedger

  // ---------------------------------------------------------------- one account's rows

  function BucketsOf(buckets: seq<Bucket>, account: string): seq<Bucket> {
    if buckets == [] then []
    else
      var earlier := BucketsOf(buckets[..|buckets| - 1], account);
      if buckets[|buckets| - 1].account == account then earlier + [buckets[|buckets| - 1]] else earlier
  }

  /** Operation and delta of an account's ledger rows, in order. */
  function EntriesOf(ledger: seq<Entry>, account: string): seq<(string, int)> {
    if ledger == [] then []
    else
      var earlier := EntriesOf(ledger[..|ledger| - 1], account);
      var e := ledger[|ledger| - 1];
      if e.account == account then earlier + [(e.op, e.delta)] else earlier
  }

  datatype View = View(
    account: Option<Account>,
    subs: map<string, Subscription>,
    buckets: seq<Bucket>,
    ledger: seq<(string, int)>)

  function ViewOf(s: State, account: string): View {
    View(if account in s.accounts then Some(s.accounts[account]) else None,
         map ref | ref in s.subs && s.subs[ref].account == account :: s.subs[ref],
         BucketsOf(s.buckets, account),
         EntriesOf(s.ledger, account))
  }

  // ---------------------------------------------------------------- frames of the operations

  lemma EntriesAppend(ledger: seq<Entry>, e: Entry, a: string)
    requires e.account != a
    ensures EntriesOf(ledger + [e], a) == EntriesOf(ledger, a)
  {
    assert (ledger + [e])[..|ledger|] == ledger;
  }

  lemma {:induction false} EntriesConcat(ledger: seq<Entry>, more: seq<Entry>, a: string)
    requires forall e :: e in more ==> e.account != a
    ensures EntriesOf(ledger + more, a) == EntriesOf(ledger, a)
  {
    if more == [] {
      assert ledger + more == ledger;
    } else {
      var n := |more| - 1;
      assert ledger + more == (ledger + more[..n]) + [more[n]];
      assert more[n] in more;
      forall e | e in more[..n] ensures e in more {}
      EntriesConcat(ledger, more[..n], a);
      EntriesAppend(ledger + more[..n], more[n], a);
    }
  }

  lemma {:induction false} DrainFrame(buckets: seq<Bucket>, account: string, source: Source, op: string, a: string)
    requires account != a
    ensures BucketsOf(Drained(buckets, account, source), a) == BucketsOf(buckets, a)
    ensures forall e :: e in DrainEntries(buckets, account, source, op) ==> e.account != a
  {
    if buckets != [] {
      var n := |buckets| - 1;
      DrainFrame(buckets[..n], account, source, op, a);
      assert Drained(buckets, account, source)[..n] == Drained(buckets[..n], account, source);
    }
  }

  lemma {:induction false} BucketUpdateFrame(buckets: seq<Bucket>, at: nat, to: Bucket, a: string)
    requires at < |buckets| && buckets[at].account != a && to.account != a
    ensures BucketsOf(buckets[at := to], a) == BucketsOf(buckets, a)
  {
    var n := |buckets| - 1;
    if at == n {
      assert buckets[at := to][..n] == buckets[..n];
    } else {
      BucketUpdateFrame(buckets[..n], at, to, a);
      assert buckets[at := to][..n] == buckets[..n][at := to];
    }
  }

  lemma AuditFrame(s: State, account: string, op: string, a: string)
    requires account != a
    ensures ViewOf(Audit(s, account, op), a) == ViewOf(s, a)
  {
    EntriesAppend(s.ledger, Entry(account, op, 0, None), a);
  }

  lemma GrantFrame(s: State, account: string, source: Source, credits: int, op: string, expiresAt: Option<int>,
                   ref: Option<string>, a: string)
    requires account != a
    requires GrantBucket(s, account, source, credits, op, expiresAt, ref).Granted?
    ensures ViewOf(GrantBucket(s, account, source, credits, op, expiresAt, ref).state, a) == ViewOf(s, a)
  {
    var b := Bucket(s.nextBucket, account, source, credits, credits, expiresAt, ref);
    assert (s.buckets + [b])[..|s.buckets|] == s.buckets;
    EntriesAppend(s.ledger, Entry(account, op, credits, Some(s.nextBucket)), a);
  }

  lemma ExpireFrame(s: State, account: string, source: Source, op: string, a: string)
    requires account != a
    ensures ViewOf(ExpireBuckets(s, account, source, op), a) == ViewOf(s, a)
  {
    DrainFrame(s.buckets, account, source, op, a);
    EntriesConcat(s.ledger, DrainEntries(s.buckets, account, source, op), a);
  }

  lemma RefundFrame(s: State, at: nat, amount: int, a: string)
    requires at < |s.buckets| && s.buckets[at].account != a
    ensures ViewOf(Refunded(s, at, amount), a) == ViewOf(s, a)
  {
    var b := s.buckets[at];
    var clawback := Min(amount, b.remaining);
    BucketUpdateFrame(s.buckets, at, b.(remaining := b.remaining - clawback), a);
    EntriesAppend(s.ledger, Entry(b.account, "refund_purchased", -clawback, Some(b.id)), a);
  }

  lemma AccountFrame(s: State, account: string, to: Account, a: string)
    requires account != a
    ensures ViewOf(s.(accounts := s.accounts[account := to]), a) == ViewOf(s, a)
  {
  }

  lemma SubscriptionFrame(s: State, key: string, row: Subscription, a: string)
    requires row.account != a && (key in s.subs ==> s.subs[key].account != a)
    ensures ViewOf(s.(subs := s.subs[key := row]), a) == ViewOf(s, a)
  {
    assert ViewOf(s.(subs := s.subs[key := row]), a).subs == ViewOf(s, a).subs;
  }

  // ---------------------------------------------------------------- what a handler can reach

  /** The owner of the subscription filed under a missing Stripe id, which the guard's id filter drops. */
  function UnfiledOwner(s: State, obj: Object): set<string> {
    if SubscriptionKey(obj) == "" && "" in s.subs then {s.subs[""].account} else {}
  }

  function Reach(s: State, obj: Object): set<string> {
    AccountsTouched(s, obj) + UnfiledOwner(s, obj)
  }

  /** Foreign keys: subscriptions and buckets belong to accounts that exist. */
  ghost predicate ForeignKeys(s: State) {
    && (forall ref :: ref in s.subs ==> s.subs[ref].account in s.accounts)
    && (forall b :: b in s.buckets ==> b.account in s.accounts)
  }

  lemma CustomerLookup(s: State, metaAccount: Option<string>, obj: Object)
    requires metaAccount == None || metaAccount == obj.metaAccount
    requires AccountForEvent(s, metaAccount, obj.customer).Found?
    ensures AccountForEvent(s, metaAccount, obj.customer).account in AccountsTouched(s, obj)
  {
    var a := AccountForEvent(s, metaAccount, obj.customer).account;
    if !(Truthy(metaAccount) && metaAccount.value in s.accounts) {
      assert a in CustomerAccounts(s, obj.customer.value);
    }
  }

  lemma CheckoutFrame(s: State, obj: Object, a: string)
    requires a !in AccountsTouched(s, obj) && OnCheckoutCompleted(s, obj).Applied?
    ensures ViewOf(OnCheckoutCompleted(s, obj).state, a) == ViewOf(s, a)
  {
    var found := AccountForEvent(s, obj.metaAccount, obj.customer);
    if found.Found? {
      CustomerLookup(s, obj.metaAccount, obj);
      var account := found.account;
      var attached :=
        if Truthy(obj.customer) && !Truthy(s.accounts[account].customer) then AttachCustomer(s, account, obj.customer)
          else s;
      AccountFrame(s, account, s.accounts[account].(customer := obj.customer), a);
      var ref := OrElse(obj.paymentIntent, obj.id);
      if obj.isTopup && TopupCredits(obj) > 0
        && GrantBucket(attached, account, Purchased, TopupCredits(obj), "topup", None, ref).Granted? {
        GrantFrame(attached, account, Purchased, TopupCredits(obj), "topup", None, ref, a);
      }
    }
  }

  lemma SubscriptionOwnerReached(s: State, obj: Object)
    requires ForeignKeys(s) && SubscriptionKey(obj) in s.subs
    ensures s.subs[SubscriptionKey(obj)].account in Reach(s, obj)
  {
  }

  lemma UpsertFrame(s: State, obj: Object, a: string)
    requires ForeignKeys(s) && a !in Reach(s, obj) && OnSubscriptionUpserted(s, obj).Applied?
    ensures ViewOf(OnSubscriptionUpserted(s, obj).state, a) == ViewOf(s, a)
  {
    var found := AccountForEvent(s, obj.metaAccount, obj.customer);
    if found.Found? {
      CustomerLookup(s, obj.metaAccount, obj);
      var account := found.account;
      var key := SubscriptionKey(obj);
      var created := key !in s.subs;
      if !created { SubscriptionOwnerReached(s, obj); }
      var row := UpsertedRow(s, account, obj);
      AuditFrame(s, account, "subscription_started", a);
      var started := if created then Audit(s, account, "subscription_started") else s;
      SubscriptionFrame(started, key, row, a);
      var stored := started.(subs := started.subs[key := row]);
      AuditFrame(stored, account, "subscription_canceled_at_period_end", a);
      var noted :=
        if row.cancelAtPeriodEnd && !created && !s.subs[key].cancelAtPeriodEnd
        then Audit(stored, account, "subscription_canceled_at_period_end") else stored;
      AccountFrame(noted, account, noted.accounts[account].(customer := obj.customer), a);
      var attached :=
        if s.accounts[account].customer == None && Truthy(obj.customer)
          then AttachCustomer(noted, account, obj.customer) else noted;
      AccountFrame(attached, account, RefreshTier(attached, account).accounts[account], a);
    }
  }

  lemma DeletedFrame(s: State, obj: Object, a: string)
    requires ForeignKeys(s) && a !in Reach(s, obj) && OnSubscriptionDeleted(s, obj).Applied?
    ensures ViewOf(OnSubscriptionDeleted(s, obj).state, a) == ViewOf(s, a)
  {
    var key := SubscriptionKey(obj);
    if key in s.subs {
      SubscriptionOwnerReached(s, obj);
      var row := s.subs[key];
      SubscriptionFrame(s, key, row.(status := Canceled), a);
      var canceled := SetStatus(s, key, Canceled);
      var op := if row.cancelAtPeriodEnd then "subscription_ended" else "subscription_canceled_immediate";
      AuditFrame(canceled, row.account, op, a);
      var noted := Audit(canceled, row.account, op);
      ExpireFrame(noted, row.account, SubscriberMonthly, EXPIRE_MONTHLY, a);
      var expired := ExpireBuckets(noted, row.account, SubscriberMonthly, EXPIRE_MONTHLY);
      AccountFrame(expired, row.account, RefreshTier(expired, row.account).accounts[row.account], a);
    }
  }

  lemma RecoveredFrame(s: State, key: string, account: string, a: string)
    requires account in s.accounts && account != a && (key in s.subs ==> s.subs[key].account != a)
    ensures ViewOf(Recovered(s, key, account), a) == ViewOf(s, a)
  {
    if key in s.subs && s.subs[key].status == PastDue {
      SubscriptionFrame(s, key, s.subs[key].(status := Active), a);
      var active := SetStatus(s, key, Active);
      AccountFrame(active, account, RefreshTier(active, account).accounts[account], a);
    }
  }

  lemma InvoicePaidFrame(settings: Settings, s: State, obj: Object, a: string)
    requires ForeignKeys(s) && a !in AccountsTouched(s, obj) && OnInvoicePaid(settings, s, obj).Applied?
    ensures ViewOf(OnInvoicePaid(settings, s, obj).state, a) == ViewOf(s, a)
  {
    var reference := InvoiceSubscriptionId(obj);
    if Truthy(reference) && InvoiceAccount(s, reference.value, obj).Found? {
      var key := reference.value;
      var account := InvoiceAccount(s, key, obj).account;
      if key !in s.subs { CustomerLookup(s, None, obj); }
      RenewedFrame(s, key, account, obj, a);
      ReplacedFrame(settings, Renewed(s, key, account, obj), account, AllowanceEnd(s, key, obj), obj.id, a);
    }
  }

  lemma RenewedFrame(s: State, key: string, account: string, obj: Object, a: string)
    requires account in s.accounts && account != a && (key in s.subs ==> s.subs[key].account != a)
    ensures ViewOf(Renewed(s, key, account, obj), a) == ViewOf(s, a)
  {
    RecoveredFrame(s, key, account, a);
    AuditFrame(Recovered(s, key, account), account, "subscription_renewed", a);
  }

  /** The old allowance expired and the new one granted. */
  lemma ReplacedFrame(settings: Settings, s: State, account: string, periodEnd: Option<int>, ref: Option<string>,
                      a: string)
    requires account != a
    ensures var expired := ExpireBuckets(s, account, SubscriberMonthly, EXPIRE_MONTHLY);
      && ViewOf(expired, a) == ViewOf(s, a)
      && (GrantMonthly(settings, expired, account, periodEnd, ref).Granted? ==>
            ViewOf(GrantMonthly(settings, expired, account, periodEnd, ref).state, a) == ViewOf(s, a))
  {
    ExpireFrame(s, account, SubscriberMonthly, EXPIRE_MONTHLY, a);
    var expired := ExpireBuckets(s, account, SubscriberMonthly, EXPIRE_MONTHLY);
    if GrantMonthly(settings, expired, account, periodEnd, ref).Granted? {
      GrantFrame(expired, account, SubscriberMonthly, settings.monthlyCredits, "grant_subscriber_monthly", periodEnd,
                 ref, a);
    }
  }

  lemma PaymentFailedFrame(s: State, obj: Object, a: string)
    requires ForeignKeys(s) && a !in AccountsTouched(s, obj) && OnInvoicePaymentFailed(s, obj).Applied?
    ensures ViewOf(OnInvoicePaymentFailed(s, obj).state, a) == ViewOf(s, a)
  {
    var reference := InvoiceSubscriptionId(obj);
    if Truthy(reference) && reference.value in s.subs {
      var row := s.subs[reference.value];
      SubscriptionFrame(s, reference.value, row.(status := PastDue), a);
      var lapsed := if row.status == Active then SetStatus(s, reference.value, PastDue) else s;
      AuditFrame(lapsed, row.account, "subscription_payment_failed", a);
    }
  }

  /** Whatever the event, a handler writes only rows of accounts in `Reach`. */
  lemma HandlerWritesOnlyReach(settings: Settings, s: State, kind: Kind, obj: Object, a: string)
    requires ForeignKeys(s) && a !in Reach(s, obj) && Handler(settings, s, kind, obj).Applied?
    ensures ViewOf(Handler(settings, s, kind, obj).state, a) == ViewOf(s, a)
  {
    match kind
    case CheckoutCompleted => CheckoutFrame(s, obj, a);
    case SubscriptionCreated => UpsertFrame(s, obj, a);
    case SubscriptionUpdated => UpsertFrame(s, obj, a);
    case SubscriptionDeleted => DeletedFrame(s, obj, a);
    case InvoicePaid => InvoicePaidFrame(settings, s, obj, a);
    case InvoicePaymentFailed => PaymentFailedFrame(s, obj, a);
    case ChargeRefunded =>
      if Truthy(obj.paymentIntent) && BucketAt(s.buckets, obj.paymentIntent.value).Some? {
        var at := BucketAt(s.buckets, obj.paymentIntent.value).value;
        assert s.buckets[at] in s.buckets;
        RefundFrame(s, at, obj.amountRefunded, a);
      }
    case Unhandled =>
  }

  lemma EntriesGrow(ledger: seq<Entry>, e: Entry)
    ensures EntriesOf(ledger + [e], e.account) == EntriesOf(ledger, e.account) + [(e.op, e.delta)]
  {
    assert (ledger + [e])[..|ledger|] == ledger;
  }

  lemma {:induction false} EntriesNeverShrink(ledger: seq<Entry>, more: seq<Entry>, a: string)
    ensures |EntriesOf(ledger + more, a)| >= |EntriesOf(ledger, a)|
  {
    if more == [] {
      assert ledger + more == ledger;
    } else {
      var n := |more| - 1;
      assert ledger + more == (ledger + more[..n]) + [more[n]];
      EntriesNeverShrink(ledger, more[..n], a);
      assert (ledger + more)[..|ledger + more| - 1] == ledger + more[..n];
    }
  }

  /** For a cancellation the guard sees every account the handler writes exactly when the row it cancels is not filed
      under a missing id, or its owner is reachable some other way. */
  lemma CancellationGuardIsExact(s: State, obj: Object)
    requires ForeignKeys(s)
    ensures (forall a ::
             a !in AccountsTouched(s, obj) ==> ViewOf(OnSubscriptionDeleted(s, obj).state, a) == ViewOf(s, a))
            <==> UnfiledOwner(s, obj) <= AccountsTouched(s, obj)
  {
    var t := OnSubscriptionDeleted(s, obj).state;
    if UnfiledOwner(s, obj) <= AccountsTouched(s, obj) {
      forall a | a !in AccountsTouched(s, obj) ensures ViewOf(t, a) == ViewOf(s, a) {
        DeletedFrame(s, obj, a);
      }
    } else {
      var row := s.subs[""];
      var op := if row.cancelAtPeriodEnd then "subscription_ended" else "subscription_canceled_immediate";
      var noted := s.ledger + [Entry(row.account, op, 0, None)];
      EntriesGrow(s.ledger, Entry(row.account, op, 0, None));
      EntriesNeverShrink(noted, DrainEntries(s.buckets, row.account, SubscriberMonthly, EXPIRE_MONTHLY), row.account);
      assert |ViewOf(t, row.account).ledger| > |ViewOf(s, row.account).ledger|;
    }
  }

  /** Whether the handler of this kind writes the row filed under a missing id. */
  predicate RewritesUnfiled(s: State, kind: Kind, obj: Object)
    requires UnfiledOwner(s, obj) != {}
  {
    match kind
    case SubscriptionDeleted => true
    case SubscriptionCreated => UpsertRewritesUnfiled(s, obj)
    case SubscriptionUpdated => UpsertRewritesUnfiled(s, obj)
    case _ => false
  }

  predicate UpsertRewritesUnfiled(s: State, obj: Object)
    requires UnfiledOwner(s, obj) != {}
  {
    var found := AccountForEvent(s, obj.metaAccount, obj.customer);
    found.Found? && UpsertedRow(s, found.account, obj) != s.subs[""]
  }

  /** An upsert that rewrites nothing under the missing id stays within what the guard sees. */
  lemma QuietUpsertFrame(s: State, obj: Object, a: string)
    requires ForeignKeys(s) && OnSubscriptionUpserted(s, obj).Applied? && a !in AccountsTouched(s, obj)
    requires UnfiledOwner(s, obj) != {} && !UpsertRewritesUnfiled(s, obj)
    ensures ViewOf(OnSubscriptionUpserted(s, obj).state, a) == ViewOf(s, a)
  {
    var found := AccountForEvent(s, obj.metaAccount, obj.customer);
    if found.Found? {
      CustomerLookup(s, obj.metaAccount, obj);
      var account, row := found.account, s.subs[""];
      assert s.subs[SubscriptionKey(obj) := row] == s.subs;
      var filed := FiledSubscription(s, account, obj);
      assert filed == s;
      AccountFrame(s, account, s.accounts[account].(customer := obj.customer), a);
      var attached :=
        if s.accounts[account].customer == None && Truthy(obj.customer) then AttachCustomer(s, account, obj.customer)
          else s;
      AccountFrame(attached, account, RefreshTier(attached, account).accounts[account], a);
    }
  }

  lemma RewrittenUpsertShows(s: State, obj: Object)
    requires OnSubscriptionUpserted(s, obj).Applied?
    requires UnfiledOwner(s, obj) != {} && UpsertRewritesUnfiled(s, obj)
    ensures var owner := s.subs[""].account; ViewOf(OnSubscriptionUpserted(s, obj).state, owner) != ViewOf(s, owner)
  {
    var owner, account := s.subs[""].account, AccountForEvent(s, obj.metaAccount, obj.customer).account;
    var t := OnSubscriptionUpserted(s, obj).state;
    assert t.subs[""] == UpsertedRow(s, account, obj);
    assert ViewOf(t, owner).subs[""] == UpsertedRow(s, account, obj) && ViewOf(s, owner).subs[""] == s.subs[""];
  }

  /** For every event type and object, with or without an id: no account the guard misses is written if and only if
      the handler leaves the row filed under a missing id as it is, or the guard reaches that row's owner. */
  lemma GuardIsExact(settings: Settings, s: State, kind: Kind, obj: Object)
    requires ForeignKeys(s) && Handler(settings, s, kind, obj).Applied?
    ensures (forall a ::
             a !in AccountsTouched(s, obj) ==> ViewOf(Handler(settings, s, kind, obj).state, a) == ViewOf(s, a))
            <==> UnfiledOwner(s, obj) <= AccountsTouched(s, obj) || !RewritesUnfiled(s, kind, obj)
  {
    if UnfiledOwner(s, obj) <= AccountsTouched(s, obj) {
      forall a | a !in AccountsTouched(s, obj)
        ensures ViewOf(Handler(settings, s, kind, obj).state, a) == ViewOf(s, a) {
        HandlerWritesOnlyReach(settings, s, kind, obj, a);
      }
    } else if kind.SubscriptionDeleted? {
      CancellationGuardIsExact(s, obj);
    } else if kind.SubscriptionCreated? || kind.SubscriptionUpdated? {
      if UpsertRewritesUnfiled(s, obj) {
        RewrittenUpsertShows(s, obj);
      } else {
        forall a | a !in AccountsTouched(s, obj)
          ensures ViewOf(Handler(settings, s, kind, obj).state, a) == ViewOf(s, a) {
          QuietUpsertFrame(s, obj, a);
        }
      }
    } else {
      forall a | a !in AccountsTouched(s, obj)
        ensures ViewOf(Handler(settings, s, kind, obj).state, a) == ViewOf(s, a) {
        OtherHandlersKeepUntouched(settings, s, kind, obj, a);
      }
    }
  }

  lemma OtherHandlersKeepUntouched(settings: Settings, s: State, kind: Kind, obj: Object, a: string)
    requires ForeignKeys(s) && Handler(settings, s, kind, obj).Applied? && a !in AccountsTouched(s, obj)
    requires !kind.SubscriptionDeleted? && !kind.SubscriptionCreated? && !kind.SubscriptionUpdated?
    ensures ViewOf(Handler(settings, s, kind, obj).state, a) == ViewOf(s, a)
  {
    match kind
    case CheckoutCompleted => CheckoutFrame(s, obj, a);
    case InvoicePaid => InvoicePaidFrame(settings, s, obj, a);
    case InvoicePaymentFailed => PaymentFailedFrame(s, obj, a);
    case ChargeRefunded =>
      if Truthy(obj.paymentIntent) && BucketAt(s.buckets, obj.paymentIntent.value).Some? {
        var at := BucketAt(s.buckets, obj.paymentIntent.value).value;
        assert s.buckets[at] in s.buckets;
        RefundFrame(s, at, obj.amountRefunded, a);
      }
    case Unhandled =>
  }

  // ---------------------------------------------------------------- a run in which the guard misses

  const STARTED := BARE.(metaAccount := Some("a"), status := "active")
  const ENTRY := Entry("a", "subscription_started", 0, None)

  /** One account, subscribed by an event without an id. */
  const UNFILED :=
    State(map["a" := Account(Subscribed, None, None)], map["" := Subscription("a", Active, false, None)], [], [ENTRY],
          0)

  lemma UnfiledIsReached(settings: Settings)
    ensures Run(settings, NOTHING, [SignUp("a"), Webhook(SubscriptionCreated, STARTED)]) == UNFILED
  {
    var signed := NOTHING.(accounts := map["a" := Account(Free, None, None)]);
    assert Next(settings, NOTHING, SignUp("a")) == signed;
    var filed := FiledSubscription(signed, "a", STARTED);
    assert filed.subs[""].account == "a" && filed.subs[""].status == Active;
    assert HasLiveSubscription(filed, "a");
    assert AccountsTouched(signed, STARTED) == {"a"};
    assert Next(settings, signed, Webhook(SubscriptionCreated, STARTED)) == UNFILED;
    RunFirst(settings, NOTHING, SignUp("a"), [Webhook(SubscriptionCreated, STARTED)]);
    RunFirst(settings, signed, Webhook(SubscriptionCreated, STARTED), []);
    assert [SignUp("a")] + [Webhook(SubscriptionCreated, STARTED)] ==
      [SignUp("a"), Webhook(SubscriptionCreated, STARTED)];
    assert [Webhook(SubscriptionCreated, STARTED)] + [] == [Webhook(SubscriptionCreated, STARTED)];
  }

  /** A cancellation that names nobody: the guard sees no account, and account "a" loses its subscription. */
  lemma GuardMissesUnfiled(settings: Settings)
    ensures var s := Run(settings, NOTHING, [SignUp("a"), Webhook(SubscriptionCreated, STARTED)]);
            && AccountsTouched(s, BARE) == {}
            && ViewOf(Next(settings, s, Webhook(SubscriptionDeleted, BARE)), "a") != ViewOf(s, "a")
  {
    UnfiledIsReached(settings);
    assert AccountsTouched(UNFILED, BARE) == {};
    var t := Next(settings, UNFILED, Webhook(SubscriptionDeleted, BARE));
    assert ViewOf(t, "a").subs[""].status == Canceled && ViewOf(UNFILED, "a").subs[""].status == Active;
  }

  // ---------------------------------------------------------------- an erased account stays erased

  /** What `delete_account` leaves of an account. */
  ghost predicate Erased(s: State, a: string) {
    && a in s.accounts && s.accounts[a].deletedAt.Some? && s.accounts[a].customer == None && s.accounts[a].tier == Free
    && (forall ref :: ref in s.subs ==> s.subs[ref].account != a)
    && (forall b :: b in s.buckets ==> b.account != a)
  }

  lemma {:induction false} NoBucketsOf(buckets: seq<Bucket>, a: string)
    ensures BucketsOf(buckets, a) == [] <==> forall b :: b in buckets ==> b.account != a
  {
    if buckets != [] {
      var n := |buckets| - 1;
      assert buckets == buckets[..n] + [buckets[n]];
      NoBucketsOf(buckets[..n], a);
    }
  }

  lemma ErasedByView(s: State, t: State, a: string)
    requires Erased(s, a) && ViewOf(t, a) == ViewOf(s, a)
    ensures Erased(t, a)
  {
    NoBucketsOf(s.buckets, a);
    NoBucketsOf(t.buckets, a);
    forall ref | ref in t.subs ensures t.subs[ref].account != a {
      assert ref !in ViewOf(s, a).subs;
      assert ref in ViewOf(t, a).subs <==> t.subs[ref].account == a;
    }
  }

  lemma DeleteErases(s: State, a: string, at: int)
    requires a in s.accounts
    ensures Erased(DeleteAccount(s, a, at), a)
  {
    forall b | b in WithoutAccount(s.buckets, a) ensures b.account != a {
      WithoutAccountMembers(s.buckets, a, b);
    }
  }

  lemma {:induction false} ClearKeepsEntries(ledger: seq<Entry>, ids: set<nat>, a: string)
    ensures EntriesOf(ClearReferences(ledger, ids), a) == EntriesOf(ledger, a)
  {
    if ledger != [] {
      var n := |ledger| - 1;
      ClearKeepsEntries(ledger[..n], ids, a);
      assert ClearReferences(ledger, ids)[..n] == ClearReferences(ledger[..n], ids);
    }
  }

  lemma {:induction false} OthersBuckets(buckets: seq<Bucket>, account: string, a: string)
    requires a != account
    ensures BucketsOf(WithoutAccount(buckets, account), a) == BucketsOf(buckets, a)
  {
    if buckets != [] {
      var n := |buckets| - 1;
      var earlier := WithoutAccount(buckets[..n], account);
      OthersBuckets(buckets[..n], account, a);
      assert (earlier + [buckets[n]])[..|earlier|] == earlier;
    }
  }

  /** Erasing one account leaves every other account's rows and everyone's ledger amounts alone. */
  lemma DeleteFrame(s: State, account: string, at: int, a: string)
    requires account in s.accounts
    ensures a != account ==> ViewOf(DeleteAccount(s, account, at), a) == ViewOf(s, a)
    ensures ViewOf(DeleteAccount(s, account, at), a).ledger == ViewOf(s, a).ledger
  {
    ClearKeepsEntries(s.ledger, BucketIdsOf(s.buckets, account), a);
    if a != account {
      OthersBuckets(s.buckets, account, a);
      assert ViewOf(DeleteAccount(s, account, at), a).subs == ViewOf(s, a).subs;
    }
  }

  lemma StepLeavesErased(settings: Settings, s: State, step: Step, a: string)
    requires ForeignKeys(s) && Erased(s, a) && !(step.Delete? && step.account == a)
    ensures ViewOf(Next(settings, s, step), a) == ViewOf(s, a)
  {
    match step
    case SignUp(x) =>
    case Checkout(x, customer) =>
      if x in s.accounts && x != a { AccountFrame(s, x, s.accounts[x].(customer := Some(customer)), a); }
    case Webhook(kind, obj) =>
      if HandleStripeEvent(settings, s, kind, obj).Applied? && !kind.Unhandled? && !TouchesTombstone(s, obj) {
        assert a !in AccountsTouched(s, obj);
        HandlerWritesOnlyReach(settings, s, kind, obj, a);
      }
    case Delete(x, at) =>
      if x in s.accounts { DeleteFrame(s, x, at, a); }
  }

  lemma DrainedOwners(buckets: seq<Bucket>, account: string, source: Source)
    ensures forall b :: b in Drained(buckets, account, source) ==> exists o :: o in buckets && o.account == b.account
  {
    forall b | b in Drained(buckets, account, source) ensures exists o :: o in buckets && o.account == b.account {
      var i :| 0 <= i < |buckets| && Drained(buckets, account, source)[i] == b;
      assert buckets[i] in buckets && buckets[i].account == b.account;
    }
  }

  lemma ExpireKeepsForeignKeys(s: State, account: string)
    requires ForeignKeys(s)
    ensures ForeignKeys(ExpireBuckets(s, account, SubscriberMonthly, EXPIRE_MONTHLY))
  {
    DrainedOwners(s.buckets, account, SubscriberMonthly);
  }

  lemma InvoicePaidKeepsForeignKeys(settings: Settings, s: State, obj: Object)
    requires ForeignKeys(s) && OnInvoicePaid(settings, s, obj).Applied?
    ensures ForeignKeys(OnInvoicePaid(settings, s, obj).state)
  {
    var reference := InvoiceSubscriptionId(obj);
    if Truthy(reference) && InvoiceAccount(s, reference.value, obj).Found? {
      var account := InvoiceAccount(s, reference.value, obj).account;
      var renewed := Renewed(s, reference.value, account, obj);
      assert ForeignKeys(renewed) && account in renewed.accounts;
      ExpireKeepsForeignKeys(renewed, account);
    }
  }

  lemma DeletedKeepsForeignKeys(s: State, obj: Object)
    requires ForeignKeys(s) && OnSubscriptionDeleted(s, obj).Applied?
    ensures ForeignKeys(OnSubscriptionDeleted(s, obj).state)
  {
    var key := SubscriptionKey(obj);
    if key in s.subs { DrainedOwners(s.buckets, s.subs[key].account, SubscriberMonthly); }
  }

  lemma HandlerKeepsForeignKeys(settings: Settings, s: State, kind: Kind, obj: Object)
    requires ForeignKeys(s) && Handler(settings, s, kind, obj).Applied?
    ensures ForeignKeys(Handler(settings, s, kind, obj).state)
  {
    match kind
    case InvoicePaid => InvoicePaidKeepsForeignKeys(settings, s, obj);
    case SubscriptionDeleted => DeletedKeepsForeignKeys(s, obj);
    case _ =>
  }

  lemma StepKeepsForeignKeys(settings: Settings, s: State, step: Step)
    requires ForeignKeys(s)
    ensures ForeignKeys(Next(settings, s, step))
  {
    match step
    case SignUp(a) =>
    case Checkout(a, customer) =>
    case Webhook(kind, obj) =>
      if HandleStripeEvent(settings, s, kind, obj).Applied? && !kind.Unhandled? && !TouchesTombstone(s, obj) {
        HandlerKeepsForeignKeys(settings, s, kind, obj);
      }
    case Delete(a, at) =>
      if a in s.accounts {
        forall b | b in WithoutAccount(s.buckets, a) ensures b in s.buckets {
          WithoutAccountMembers(s.buckets, a, b);
        }
      }
  }

  /** After an erasure, no run of webhooks, sign-ups, checkouts or other erasures changes or recreates any row of the
      account. */
  lemma {:induction false} ErasureIsPermanent(settings: Settings, s: State, steps: seq<Step>, a: string)
    requires ForeignKeys(s) && Erased(s, a)
    requires forall step :: step in steps ==> !(step.Delete? && step.account == a)
    ensures ViewOf(Run(settings, s, steps), a) == ViewOf(s, a) && Erased(Run(settings, s, steps), a)
    decreases |steps|
  {
    if steps != [] {
      assert steps[0] in steps;
      var t := Next(settings, s, steps[0]);
      StepLeavesErased(settings, s, steps[0], a);
      ErasedByView(s, t, a);
      StepKeepsForeignKeys(settings, s, steps[0]);
      ErasureIsPermanent(settings, t, steps[1..], a);
    }
  }

  /** The same from the very first state: sign-ups and events, an erasure, then anything. */
  lemma ErasedFromTheStart(settings: Settings, s: State, before: seq<Step>, a: string, at: int, after: seq<Step>)
    requires Init(s) && a in Run(settings, s, before).accounts
    requires forall step :: step in after ==> !(step.Delete? && step.account == a)
    ensures var erased := DeleteAccount(Run(settings, s, before), a, at);
            && ViewOf(Run(settings, erased, after), a) == ViewOf(erased, a)
            && ViewOf(Run(settings, erased, after), a).ledger == ViewOf(Run(settings, s, before), a).ledger
            && ViewOf(Run(settings, erased, after), a).subs == map[]
            && ViewOf(Run(settings, erased, after), a).buckets == []
  {
    var grown := Run(settings, s, before);
    RunKeepsForeignKeys(settings, s, before);
    StepKeepsForeignKeys(settings, grown, Delete(a, at));
    DeleteErases(grown, a, at);
    ErasureIsPermanent(settings, DeleteAccount(grown, a, at), after, a);
    DeleteFrame(grown, a, at, a);
    NoBucketsOf(DeleteAccount(grown, a, at).buckets, a);
    assert ViewOf(DeleteAccount(grown, a, at), a).subs == map[];
  }

  lemma {:induction false} RunKeepsForeignKeys(settings: Settings, s: State, steps: seq<Step>)
    requires ForeignKeys(s)
    ensures ForeignKeys(Run(settings, s, steps))
    decreases |steps|
  {
    if steps != [] {
      StepKeepsForeignKeys(settings, s, steps[0]);
      RunKeepsForeignKeys(settings, Next(settings, s, steps[0]), steps[1..]);
    }
  }
}
