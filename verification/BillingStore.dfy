// The webhook handlers as they run: rows assigned in place inside one transaction.
module BillingStore {
  import opened Wrappers
  import opened Billing
  import opened BillingLedger
  import opened BillingGuard

  /** The expiry loop of `expire_buckets` after i buckets. */
  ghost function DrainLoop(s: State, i: nat, account: string, source: Source,
                           op: string): (loop: (seq<Bucket>, seq<Entry>))
    requires i <= |s.buckets|
    ensures |loop.0| == |s.buckets| && forall j :: i <= j < |s.buckets| ==> loop.0[j] == s.buckets[j]
  {
    if i == 0 then (s.buckets, s.ledger)
    else
      var prior := DrainLoop(s, i - 1, account, source, op);
      var b := s.buckets[i - 1];
      if IsLive(b, account, source) then
        (prior.0[i - 1 := b.(remaining := 0)], prior.1 + [Entry(account, op, -b.remaining, Some(b.id))])
      else prior
  }

  lemma DrainLoopStep(s: State, i: nat, account: string, source: Source, op: string)
    requires i < |s.buckets|
    ensures var prior, next, b :=
      DrainLoop(s, i, account, source, op), DrainLoop(s, i + 1, account, source, op), s.buckets[i];
      && prior.0[i] == b
      && next == if IsLive(b, account, source)
                 then (prior.0[i := b.(remaining := 0)], prior.1 + [Entry(account, op, -b.remaining, Some(b.id))])
                   else prior
  {
  }

  lemma {:induction false} DrainLoopBuckets(s: State, i: nat, account: string, source: Source, op: string)
    requires i <= |s.buckets|
    ensures DrainLoop(s, i, account, source, op).0 == Drained(s.buckets[..i], account, source) + s.buckets[i..]
  {
    if i > 0 {
      DrainLoopBuckets(s, i - 1, account, source, op);
      DrainLoopStep(s, i - 1, account, source, op);
      DrainedNext(s.buckets, i - 1, account, source);
    }
  }

  lemma {:induction false} DrainLoopLedger(s: State, i: nat, account: string, source: Source, op: string)
    requires i <= |s.buckets|
    ensures DrainLoop(s, i, account, source, op).1 == s.ledger + DrainEntries(s.buckets[..i], account, source, op)
  {
    if i > 0 {
      DrainLoopLedger(s, i - 1, account, source, op);
      assert s.buckets[..i][..i - 1] == s.buckets[..i - 1];
      assert s.buckets[..i][i - 1] == s.buckets[i - 1];
    }
  }

  lemma DrainedNext(buckets: seq<Bucket>, i: nat, account: string, source: Source)
    requires i < |buckets|
    ensures var b := buckets[i];
      && (Drained(buckets[..i], account, source) + buckets[i..])[i :=
          if IsLive(b, account, source) then b.(remaining := 0) else b]
         == Drained(buckets[..i + 1], account, source) + buckets[i + 1..]
  {
    assert buckets[..i + 1][..i] == buckets[..i];
    assert buckets[..i + 1][i] == buckets[i];
  }

  lemma DrainLoopEnds(s: State, account: string, source: Source, op: string)
    ensures DrainLoop(s, |s.buckets|, account, source, op).0 == Drained(s.buckets, account, source)
    ensures DrainLoop(s, |s.buckets|, account, source, op).1 == s.ledger + DrainEntries(s.buckets, account, source, op)
  {
    DrainLoopBuckets(s, |s.buckets|, account, source, op);
    DrainLoopLedger(s, |s.buckets|, account, source, op);
    assert s.buckets[..|s.buckets|] == s.buckets && s.buckets[|s.buckets|..] == [];
  }

  /** The wallet of one source. */
  function SourceTotal(buckets: seq<Bucket>, account: string, source: Source, now: int): int {
    if buckets == [] then 0
    else
      var b := buckets[|buckets| - 1];
      SourceTotal(buckets[..|buckets| - 1], account, source, now) +
      (if IsLive(b, account, source) && !Lapsed(b, now) then b.remaining else 0)
  }

  function PurchasedLifetime(buckets: seq<Bucket>, account: string): int {
    if buckets == [] then 0
    else
      var b := buckets[|buckets| - 1];
      PurchasedLifetime(buckets[..|buckets| - 1], account) +
      (if b.account == account && b.source == Purchased then b.granted else 0)
  }

  predicate Holds(buckets: seq<Bucket>, a: string, first: Option<string>, second: Option<string>) {
    exists b ::
      b in buckets && b.account == a && ((Truthy(first) && b.ref == first) || (Truthy(second) && b.ref == second))
  }

  class Store {
    var accounts: map<string, Account>
    var subs: map<string, Subscription>
    var buckets: seq<Bucket>
    var ledger: seq<Entry>
    var nextBucket: nat

    function Snapshot(): State
      reads this
    {
      State(accounts, subs, buckets, ledger, nextBucket)
    }

    constructor ()
      ensures Init(Snapshot()) && nextBucket == 0
    {
      accounts, subs, buckets, ledger, nextBucket := map[], map[], [], [], 0;
    }

    method LedgerAppend(account: string, op: string, delta: int, bucket: Option<nat>)
      modifies this`ledger
      ensures ledger == old(ledger) + [Entry(account, op, delta, bucket)]
    {
      ledger := ledger + [Entry(account, op, delta, bucket)];
    }

    /** `grant_bucket`. A second bucket with the same empty ref violates the UNIQUE column on flush. */
    method GrantCredits(account: string, source: Source, credits: int, op: string, expiresAt: Option<int>,
                        ref: Option<string>)
      returns (granted: bool, raised: bool)
      modifies this`buckets, this`ledger, this`nextBucket
      ensures match GrantBucket(old(Snapshot()), account, source, credits, op, expiresAt, ref)
              case Granted(t) => granted && !raised && Snapshot() == t
              case Duplicate => !granted && !raised && Snapshot() == old(Snapshot())
              case UniqueViolation => raised && Snapshot() == old(Snapshot())
    {
      if Truthy(ref) {
        var existing := BucketAt(buckets, ref.value);
        if existing.Some? { return false, false; }
      }
      if ref.Some? && BucketAt(buckets, ref.value).Some? { return false, true; }
      var id := nextBucket;
      nextBucket := nextBucket + 1;
      buckets := buckets + [Bucket(id, account, source, credits, credits, expiresAt, ref)];
      LedgerAppend(account, op, credits, Some(id));
      return true, false;
    }

    /** `expire_buckets`: the loop over the live buckets of a source. */
    method ExpireCredits(account: string, source: Source, op: string) returns (expired: int)
      modifies this`buckets, this`ledger
      ensures Snapshot() == ExpireBuckets(old(Snapshot()), account, source, op)
      ensures expired == Remaining(old(buckets), account) - Remaining(buckets, account)
    {
      ghost var before := Snapshot();
      expired := 0;
      var i := 0;
      while i < |buckets|
        invariant 0 <= i <= |buckets| == |before.buckets|
        invariant (buckets, ledger) == DrainLoop(before, i, account, source, op)
        invariant expired == Remaining(before.buckets, account) - Remaining(buckets, account)
      {
        DrainLoopStep(before, i, account, source, op);
        var taken := DrainAt(i, account, source, op);
        expired := expired + taken;
        i := i + 1;
      }
      DrainLoopEnds(before, account, source, op);
    }

    /** One turn of the loop: a live bucket of the source drops to zero, with its ledger row. */
    method DrainAt(i: nat, account: string, source: Source, op: string) returns (taken: int)
      requires i < |buckets|
      modifies this`buckets, this`ledger
      ensures var b := old(buckets)[i];
        (buckets, ledger) ==
          if IsLive(b, account, source)
          then (old(buckets)[i := b.(remaining := 0)], old(ledger) + [Entry(account, op, -b.remaining, Some(b.id))])
          else (old(buckets), old(ledger))
      ensures taken == Remaining(old(buckets), account) - Remaining(buckets, account)
    {
      var bucket := buckets[i];
      taken := 0;
      if bucket.account == account && bucket.source == source && bucket.remaining > 0 {
        RemainingUpdate(buckets, i, 0, account);
        taken := bucket.remaining;
        buckets := buckets[i := bucket.(remaining := 0)];
        LedgerAppend(account, op, -taken, Some(bucket.id));
      }
    }

    /** `wallet_balances`: balances by source, their total, and the credits ever purchased. */
    method WalletBalances(account: string, now: int)
      returns (balances: map<Source, int>, total: int, purchasedLifetime: int)
      ensures total == WalletTotal(buckets, account, now)
      ensures forall source ::
        (if source in balances then balances[source] else 0) == SourceTotal(buckets, account, source, now)
      ensures purchasedLifetime == PurchasedLifetime(buckets, account)
    {
      balances, total, purchasedLifetime := map[], 0, 0;
      var i := 0;
      while i < |buckets|
        invariant 0 <= i <= |buckets|
        invariant total == WalletTotal(buckets[..i], account, now)
        invariant forall source ::
          (if source in balances then balances[source] else 0) == SourceTotal(buckets[..i], account, source, now)
        invariant purchasedLifetime == PurchasedLifetime(buckets[..i], account)
      {
        var bucket := buckets[i];
        assert buckets[..i + 1][..i] == buckets[..i];
        if bucket.account == account && bucket.remaining > 0 {
          if !(bucket.expiresAt.Some? && bucket.expiresAt.value <= now) {
            var soFar := if bucket.source in balances then balances[bucket.source] else 0;
            balances := balances[bucket.source := soFar + bucket.remaining];
            total := total + bucket.remaining;
          }
        }
        if bucket.account == account && bucket.source == Purchased {
          purchasedLifetime := purchasedLifetime + bucket.granted;
        }
        i := i + 1;
      }
      assert buckets[..i] == buckets;
    }

    method Refresh(account: string)
      requires account in accounts
      modifies this`accounts
      ensures Snapshot() == RefreshTier(old(Snapshot()), account)
    {
      var live := HasLiveSubscription(Snapshot(), account);
      accounts := accounts[account := accounts[account].(tier := if live then Subscribed else Free)];
    }

    method Attach(account: string, customer: Option<string>)
      requires account in accounts
      modifies this`accounts
      ensures Snapshot() == AttachCustomer(old(Snapshot()), account, customer)
    {
      accounts := accounts[account := accounts[account].(customer := customer)];
    }

    /** The handler ran to its return, or raised and left the rollback to the caller. */
    ghost predicate Ran(result: Result, raised: bool, disposition: string)
      reads this
    {
      match result
      case Applied(t, d) => !raised && Snapshot() == t && disposition == d
      case Raised => raised
    }

    method CheckoutCompletedEvent(obj: Object) returns (disposition: string, raised: bool)
      modifies this
      ensures Ran(OnCheckoutCompleted(old(Snapshot()), obj), raised, disposition)
    {
      var found := AccountForEvent(Snapshot(), obj.metaAccount, obj.customer);
      if found.Ambiguous? { return "", true; }
      if found.Missing? { return "no-account", false; }
      var account := found.account;
      if Truthy(obj.customer) && !Truthy(accounts[account].customer) {
        Attach(account, obj.customer);
      }
      if obj.isTopup {
        var credits := obj.metaCredits;
        if credits <= 0 && obj.amountTotal.Some? { credits := obj.amountTotal.value; }
        if credits <= 0 { return "topup-no-credits", false; }
        var granted, violated :=
          GrantCredits(account, Purchased, credits, "topup", None, OrElse(obj.paymentIntent, obj.id));
        if violated { return "", true; }
        return if granted then "topup-granted" else "topup-duplicate", false;
      }
      return "customer-attached", false;
    }

    /** The row written field by field, with its audit rows. */
    method FileSubscription(account: string, obj: Object) returns (created: bool)
      modifies this`subs, this`ledger
      ensures Snapshot() == FiledSubscription(old(Snapshot()), account, obj)
      ensures created <==> SubscriptionKey(obj) !in old(subs)
    {
      var status := StatusOf(obj.status);
      var key := SubscriptionKey(obj);
      created := key !in subs;
      if created {
        subs := subs[key := Subscription(account, Active, false, None)];
        LedgerAppend(account, "subscription_started", 0, None);
      }
      var wasCancelPending := subs[key].cancelAtPeriodEnd;
      subs := subs[key := subs[key].(status := status)];
      subs := subs[key := subs[key].(cancelAtPeriodEnd := obj.cancelAtPeriodEnd)];
      if obj.periodEnd.Some? {
        subs := subs[key := subs[key].(periodEnd := obj.periodEnd)];
      }
      if subs[key].cancelAtPeriodEnd && !wasCancelPending && !created {
        LedgerAppend(account, "subscription_canceled_at_period_end", 0, None);
      }
    }

    method SubscriptionUpsertedEvent(obj: Object) returns (disposition: string, raised: bool)
      modifies this`accounts, this`subs, this`ledger
      ensures Ran(OnSubscriptionUpserted(old(Snapshot()), obj), raised, disposition)
    {
      var found := AccountForEvent(Snapshot(), obj.metaAccount, obj.customer);
      if found.Ambiguous? { return "", true; }
      if found.Missing? { return "no-account", false; }
      var account := found.account;
      var created := FileSubscription(account, obj);
      if accounts[account].customer == None && Truthy(obj.customer) {
        Attach(account, obj.customer);
      }
      Refresh(account);
      return if created then "subscription-created" else "subscription-updated", false;
    }

    method SubscriptionDeletedEvent(obj: Object) returns (disposition: string)
      modifies this
      ensures Ran(OnSubscriptionDeleted(old(Snapshot()), obj), false, disposition)
    {
      var key := SubscriptionKey(obj);
      if key !in subs { return "no-subscription"; }
      subs := subs[key := subs[key].(status := Canceled)];
      var account := subs[key].account;
      if account !in accounts { return "no-account"; }
      LedgerAppend(account, if !subs[key].cancelAtPeriodEnd then "subscription_canceled_immediate"
                   else "subscription_ended", 0, None);
      var expired := ExpireCredits(account, SubscriberMonthly, EXPIRE_MONTHLY);
      Refresh(account);
      return "subscription-canceled";
    }

    /** A paid invoice ends the dunning grace; a cycle invoice is noted. */
    method Renew(key: string, account: string, obj: Object)
      requires account in accounts
      modifies this`accounts, this`subs, this`ledger
      ensures Snapshot() == Renewed(old(Snapshot()), key, account, obj)
    {
      if key in subs && subs[key].status == PastDue {
        subs := subs[key := subs[key].(status := Active)];
        Refresh(account);
      }
      if obj.billingReason == "subscription_cycle" {
        LedgerAppend(account, "subscription_renewed", 0, None);
      }
    }

    /** The old grant does not roll over. */
    method ReplaceAllowance(settings: Settings, key: string, account: string, obj: Object)
      returns (granted: bool, violated: bool)
      modifies this`buckets, this`ledger, this`nextBucket
      ensures var expired := ExpireBuckets(old(Snapshot()), account, SubscriberMonthly, EXPIRE_MONTHLY);
              match GrantMonthly(settings, expired, account, AllowanceEnd(old(Snapshot()), key, obj), obj.id)
              case Granted(t) => granted && !violated && Snapshot() == t
              case Duplicate => !granted && !violated && Snapshot() == expired
              case UniqueViolation => violated
    {
      var expired := ExpireCredits(account, SubscriberMonthly, EXPIRE_MONTHLY);
      var periodEnd := if key in subs then subs[key].periodEnd else None;
      if obj.linePeriodEnd.Some? { periodEnd := obj.linePeriodEnd; }
      granted, violated :=
        GrantCredits(account, SubscriberMonthly, settings.monthlyCredits, "grant_subscriber_monthly", periodEnd,
                     obj.id);
    }

    method InvoicePaidEvent(settings: Settings, obj: Object) returns (disposition: string, raised: bool)
      modifies this
      ensures Ran(OnInvoicePaid(settings, old(Snapshot()), obj), raised, disposition)
    {
      var reference := InvoiceSubscriptionId(obj);
      if !Truthy(reference) { return "ignored", false; }
      var key := reference.value;
      var found := InvoiceAccount(Snapshot(), key, obj);
      if found.Ambiguous? { return "", true; }
      if found.Missing? { return "no-account", false; }
      var account := found.account;
      // Idempotency first: a redelivered invoice must not expire the allowance it granted.
      if Truthy(obj.id) && BucketAt(buckets, obj.id.value).Some? { return "grant-duplicate", false; }
      Renew(key, account, obj);
      var granted, violated := ReplaceAllowance(settings, key, account, obj);
      if violated { return "", true; }
      return if granted then "grant-issued" else "grant-duplicate", false;
    }

    method PaymentFailedEvent(obj: Object) returns (disposition: string)
      modifies this
      ensures Ran(OnInvoicePaymentFailed(old(Snapshot()), obj), false, disposition)
    {
      var reference := InvoiceSubscriptionId(obj);
      if !Truthy(reference) { return "ignored"; }
      var key := reference.value;
      if key !in subs { return "no-subscription"; }
      if subs[key].status == Active {
        subs := subs[key := subs[key].(status := PastDue)];
      }
      if subs[key].account in accounts {
        LedgerAppend(subs[key].account, "subscription_payment_failed", 0, None);
      }
      return "past-due";
    }

    method ChargeRefundedEvent(obj: Object) returns (disposition: string)
      modifies this
      ensures Ran(OnChargeRefunded(old(Snapshot()), obj), false, disposition)
    {
      if !Truthy(obj.paymentIntent) { return "ignored"; }
      var at := BucketAt(buckets, obj.paymentIntent.value);
      if at == None { return "no-bucket"; }
      var bucket := buckets[at.value];
      var clawback := Min(obj.amountRefunded, bucket.remaining);
      if clawback > 0 {
        buckets := buckets[at.value := bucket.(remaining := bucket.remaining - clawback)];
      }
      LedgerAppend(bucket.account, "refund_purchased", -clawback, Some(bucket.id));
      return "refund-applied";
    }

    /** The owners of the buckets carrying one of two refs. */
    method BucketHolders(first: Option<string>, second: Option<string>) returns (owners: set<string>)
      ensures owners == BucketOwners(buckets, first) + BucketOwners(buckets, second)
    {
      owners := {};
      var i := 0;
      while i < |buckets|
        invariant 0 <= i <= |buckets|
        invariant forall a :: a in owners <==> Holds(buckets[..i], a, first, second)
      {
        assert buckets[..i + 1] == buckets[..i] + [buckets[i]];
        var bucket := buckets[i];
        if (Truthy(first) && bucket.ref == first) || (Truthy(second) && bucket.ref == second) {
          owners := owners + {bucket.account};
        }
        i := i + 1;
      }
      assert buckets[..i] == buckets;
    }

    /** `_accounts_touched`: collect every candidate id, then keep those that name an account. */
    method TouchedAccounts(obj: Object) returns (touched: set<string>)
      ensures touched == AccountsTouched(Snapshot(), obj)
    {
      var ids: set<string> := {};
      if Truthy(obj.metaAccount) { ids := ids + {obj.metaAccount.value}; }
      if Truthy(obj.customer) { ids := ids + CustomerAccounts(Snapshot(), obj.customer.value); }
      ids := ids
        + (SubscriptionOwners(Snapshot(), obj.id) + SubscriptionOwners(Snapshot(), InvoiceSubscriptionId(obj)));
      var holders := BucketHolders(obj.paymentIntent, obj.id);
      ids := ids + holders;
      touched := set a | a in ids && a in accounts;
    }

    /** The dispatch table. */
    method Dispatch(settings: Settings, kind: Kind, obj: Object) returns (disposition: string, raised: bool)
      requires !kind.Unhandled?
      modifies this
      ensures Ran(Handler(settings, old(Snapshot()), kind, obj), raised, disposition)
    {
      raised := false;
      match kind {
        case CheckoutCompleted => disposition, raised := CheckoutCompletedEvent(obj);
        case SubscriptionCreated => disposition, raised := SubscriptionUpsertedEvent(obj);
        case SubscriptionUpdated => disposition, raised := SubscriptionUpsertedEvent(obj);
        case SubscriptionDeleted => disposition := SubscriptionDeletedEvent(obj);
        case InvoicePaid => disposition, raised := InvoicePaidEvent(settings, obj);
        case InvoicePaymentFailed => disposition := PaymentFailedEvent(obj);
        case ChargeRefunded => disposition := ChargeRefundedEvent(obj);
      }
    }

    /** `handle_stripe_event` inside the router's transaction: the guard sits before the dispatch, and an exception
        rolls back. */
    method HandleEvent(settings: Settings, kind: Kind, obj: Object) returns (disposition: string, raised: bool)
      modifies this
      ensures match HandleStripeEvent(settings, old(Snapshot()), kind, obj)
              case Applied(t, d) => !raised && disposition == d && Snapshot() == t
              case Raised => raised && Snapshot() == old(Snapshot())
    {
      if kind.Unhandled? { return "ignored", false; }
      var touched := TouchedAccounts(obj);
      if exists a :: a in touched && accounts[a].deletedAt.Some? {
        return DISPOSITION_ACCOUNT_DELETED, false;
      }
      var saved := Snapshot();
      disposition, raised := Dispatch(settings, kind, obj);
      if raised {
        accounts, subs, buckets, ledger, nextBucket :=
          saved.accounts, saved.subs, saved.buckets, saved.ledger, saved.nextBucket;
      }
    }

    /** The billing half of `delete_account`, in its own order: references nulled, buckets dropped, subscriptions
        dropped, the row anonymized. */
    method EraseAccount(account: string, at: int)
      requires account in accounts
      modifies this
      ensures Snapshot() == DeleteAccount(old(Snapshot()), account, at)
      ensures Erased(Snapshot(), account)
    {
      DeleteErases(Snapshot(), account, at);
      var bucketIds := BucketIdsOf(buckets, account);
      NoReferencesNoChange(ledger, bucketIds);
      NoBucketsNoChange(buckets, account);
      if bucketIds != {} {
        ledger := ClearReferences(ledger, bucketIds);
        buckets := WithoutAccount(buckets, account);
      }
      subs := map ref | ref in subs && subs[ref].account != account :: subs[ref];
      accounts := accounts[account := accounts[account].(tier := Free)];
      accounts := accounts[account := accounts[account].(customer := None)];
      accounts := accounts[account := accounts[account].(deletedAt := Some(at))];
    }
  }

  lemma NoReferencesNoChange(ledger: seq<Entry>, ids: set<nat>)
    ensures ids == {} ==> ClearReferences(ledger, ids) == ledger
  {
  }

  lemma {:induction false} NoBucketsNoChange(buckets: seq<Bucket>, account: string)
    ensures BucketIdsOf(buckets, account) == {} ==> WithoutAccount(buckets, account) == buckets
  {
    if buckets != [] && BucketIdsOf(buckets, account) == {} {
      var n := |buckets| - 1;
      assert forall b :: b in buckets && b.account == account ==> b.id in BucketIdsOf(buckets, account);
      assert buckets == buckets[..n] + [buckets[n]];
      NoBucketsNoChange(buckets[..n], account);
    }
  }
}
