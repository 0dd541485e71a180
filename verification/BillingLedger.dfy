// Conservation: the ledger accounts for every credit in every bucket, in every run.
module BillingLedger {
  import opened Wrappers
  import opened Billing

  // ---------------------------------------------------------------- sums

  /** The ledger deltas that reference one bucket. */
  function SumFor(ledger: seq<Entry>, bucket: nat): int {
    if ledger == [] then 0
    else
      SumFor(ledger[..|ledger| - 1], bucket) +
      (if ledger[|ledger| - 1].bucket == Some(bucket) then ledger[|ledger| - 1].delta else 0)
  }

  /** The ledger deltas of one account. */
  function SumOf(ledger: seq<Entry>, account: string): int {
    if ledger == [] then 0
    else
      SumOf(ledger[..|ledger| - 1], account) +
      (if ledger[|ledger| - 1].account == account then ledger[|ledger| - 1].delta else 0)
  }

  /** The credits left in one account's buckets. */
  function Remaining(buckets: seq<Bucket>, account: string): int {
    if buckets == [] then 0
    else
      Remaining(buckets[..|buckets| - 1], account) +
      (if buckets[|buckets| - 1].account == account then buckets[|buckets| - 1].remaining else 0)
  }

  lemma SumAppend(ledger: seq<Entry>, e: Entry, bucket: nat, account: string)
    ensures SumFor(ledger + [e], bucket) == SumFor(ledger, bucket) + (if e.bucket == Some(bucket) then e.delta else 0)
    ensures SumOf(ledger + [e], account) == SumOf(ledger, account) + (if e.account == account then e.delta else 0)
  {
    assert (ledger + [e])[..|ledger|] == ledger;
  }

  lemma {:induction false} SumConcat(a: seq<Entry>, b: seq<Entry>, bucket: nat, account: string)
    ensures SumFor(a + b, bucket) == SumFor(a, bucket) + SumFor(b, bucket)
    ensures SumOf(a + b, account) == SumOf(a, account) + SumOf(b, account)
  {
    if b == [] {
      assert a + b == a;
    } else {
      var n := |b| - 1;
      assert a + b == (a + b[..n]) + [b[n]];
      SumConcat(a, b[..n], bucket, account);
      SumAppend(a + b[..n], b[n], bucket, account);
    }
  }

  lemma RemainingAppend(buckets: seq<Bucket>, b: Bucket, account: string)
    ensures Remaining(buckets + [b], account) ==
      Remaining(buckets, account) + (if b.account == account then b.remaining else 0)
  {
    assert (buckets + [b])[..|buckets|] == buckets;
  }

  lemma {:induction false} RemainingUpdate(buckets: seq<Bucket>, at: nat, remaining: int, account: string)
    requires at < |buckets|
    ensures Remaining(buckets[at := buckets[at].(remaining := remaining)], account) ==
            Remaining(buckets, account)
              + (if buckets[at].account == account then remaining - buckets[at].remaining else 0)
  {
    var n := |buckets| - 1;
    var to := buckets[at].(remaining := remaining);
    if at == n {
      assert buckets[at := to][..n] == buckets[..n];
    } else {
      RemainingUpdate(buckets[..n], at, remaining, account);
      assert buckets[at := to][..n] == buckets[..n][at := to];
    }
  }

  // ---------------------------------------------------------------- the invariant

  ghost predicate IsTombstone(s: State, account: string) {
    account in s.accounts && s.accounts[account].deletedAt.Some?
  }

  ghost predicate BucketsOk(s: State) {
    && IdsApart(s.buckets)
    && (forall b :: b in s.buckets ==> b.id < s.nextBucket && 0 <= b.remaining <= b.granted)
  }

  /** Each bucket's remaining credits are the sum of the ledger rows that reference it. */
  ghost predicate BucketsBalanced(s: State) {
    && (forall b :: b in s.buckets ==> SumFor(s.ledger, b.id) == b.remaining)
    && (forall id :: id >= s.nextBucket ==> SumFor(s.ledger, id) == 0)
  }

  /** Each living account's ledger sums to what its buckets still hold. */
  ghost predicate AccountsBalanced(s: State) {
    forall a :: !IsTombstone(s, a) ==> SumOf(s.ledger, a) == Remaining(s.buckets, a)
  }

  ghost predicate Conserved(s: State) {
    BucketsOk(s) && BucketsBalanced(s) && AccountsBalanced(s)
  }

  /** What conservation does not look at. */
  ghost predicate SameMoney(s: State, t: State) {
    && s.buckets == t.buckets && s.ledger == t.ledger && s.nextBucket == t.nextBucket
    && (forall a :: IsTombstone(s, a) ==> IsTombstone(t, a))
  }

  lemma SameMoneyConserves(s: State, t: State)
    requires Conserved(s) && SameMoney(s, t)
    ensures Conserved(t)
  {
  }

  // ---------------------------------------------------------------- the ledger operations conserve

  lemma AuditConserves(s: State, account: string, op: string)
    requires Conserved(s)
    ensures Conserved(Audit(s, account, op))
  {
    var e := Entry(account, op, 0, None);
    forall id: nat, a: string
      ensures SumFor(s.ledger + [e], id) == SumFor(s.ledger, id) && SumOf(s.ledger + [e], a) == SumOf(s.ledger, a)
    {
      SumAppend(s.ledger, e, id, a);
    }
  }

  lemma GrantConserves(s: State, account: string, source: Source, credits: int, op: string, expiresAt: Option<int>,
                       ref: Option<string>)
    requires Conserved(s) && credits >= 0
    requires GrantBucket(s, account, source, credits, op, expiresAt, ref).Granted?
    ensures Conserved(GrantBucket(s, account, source, credits, op, expiresAt, ref).state)
  {
    var t := GrantBucket(s, account, source, credits, op, expiresAt, ref).state;
    var e := Entry(account, op, credits, Some(s.nextBucket));
    var b := Bucket(s.nextBucket, account, source, credits, credits, expiresAt, ref);
    forall id: nat, a: string
      ensures SumFor(t.ledger, id) == SumFor(s.ledger, id) + (if id == s.nextBucket then credits else 0)
      ensures SumOf(t.ledger, a) == SumOf(s.ledger, a) + (if a == account then credits else 0)
      ensures Remaining(t.buckets, a) == Remaining(s.buckets, a) + (if a == account then credits else 0)
    {
      SumAppend(s.ledger, e, id, a);
      RemainingAppend(s.buckets, b, a);
    }
    forall x | x in t.buckets ensures x in s.buckets || x == b {}
    forall i, j | 0 <= i < j < |t.buckets| ensures t.buckets[i].id != t.buckets[j].id {
      assert t.buckets[i] in s.buckets;
    }
  }

  /** The rows `expire_buckets` writes for one account. */
  lemma {:induction false} DrainOfAccount(buckets: seq<Bucket>, account: string, source: Source, op: string, a: string)
    ensures SumOf(DrainEntries(buckets, account, source, op), a) ==
            Remaining(Drained(buckets, account, source), a) - Remaining(buckets, a)
  {
    if buckets != [] {
      var n := |buckets| - 1;
      var b := buckets[n];
      DrainOfAccount(buckets[..n], account, source, op, a);
      RemainingAppend(Drained(buckets[..n], account, source), if IsLive(b, account, source) then b.(remaining := 0)
                      else b, a);
      if IsLive(b, account, source) {
        SumAppend(DrainEntries(buckets[..n], account, source, op), Entry(account, op, -b.remaining, Some(b.id)), 0, a);
      }
    }
  }

  lemma {:induction false} DrainOfStranger(buckets: seq<Bucket>, account: string, source: Source, op: string, id: nat)
    requires forall b :: b in buckets ==> b.id != id
    ensures SumFor(DrainEntries(buckets, account, source, op), id) == 0
  {
    if buckets != [] {
      var n := |buckets| - 1;
      var b := buckets[n];
      assert b in buckets;
      forall x | x in buckets[..n] ensures x in buckets {}
      DrainOfStranger(buckets[..n], account, source, op, id);
      if IsLive(b, account, source) {
        SumAppend(DrainEntries(buckets[..n], account, source, op), Entry(account, op, -b.remaining, Some(b.id)), id,
                  account);
      }
    }
  }

  lemma {:induction false} DrainOfBucket(buckets: seq<Bucket>, account: string, source: Source, op: string, at: nat)
    requires at < |buckets|
    requires IdsApart(buckets)
    ensures SumFor(DrainEntries(buckets, account, source, op), buckets[at].id) ==
            Drained(buckets, account, source)[at].remaining - buckets[at].remaining
  {
    var n := |buckets| - 1;
    var b := buckets[n];
    var id := buckets[at].id;
    if at == n {
      forall x | x in buckets[..n] ensures x.id != id {
        var i :| 0 <= i < n && buckets[i] == x;
      }
      DrainOfStranger(buckets[..n], account, source, op, id);
    } else {
      DrainOfBucket(buckets[..n], account, source, op, at);
    }
    if IsLive(b, account, source) {
      SumAppend(DrainEntries(buckets[..n], account, source, op), Entry(account, op, -b.remaining, Some(b.id)), id,
                account);
    }
  }

  lemma ExpireKeepsBucketsOk(s: State, account: string, source: Source, op: string)
    requires BucketsOk(s)
    ensures BucketsOk(ExpireBuckets(s, account, source, op))
  {
    var t := ExpireBuckets(s, account, source, op);
    forall b | b in t.buckets ensures b.id < t.nextBucket && 0 <= b.remaining <= b.granted {
      var i :| 0 <= i < |t.buckets| && t.buckets[i] == b;
      assert s.buckets[i] in s.buckets;
    }
  }

  lemma ExpireKeepsBucketsBalanced(s: State, account: string, source: Source, op: string)
    requires BucketsOk(s) && BucketsBalanced(s)
    ensures BucketsBalanced(ExpireBuckets(s, account, source, op))
  {
    var t := ExpireBuckets(s, account, source, op);
    forall b | b in t.buckets ensures SumFor(t.ledger, b.id) == b.remaining {
      var i :| 0 <= i < |t.buckets| && t.buckets[i] == b;
      ExpiredBucketBalanced(s, account, source, op, i);
    }
    forall id | id >= t.nextBucket ensures SumFor(t.ledger, id) == 0 {
      ExpireSparesFreshIds(s, account, source, op, id);
    }
  }

  lemma ExpiredBucketBalanced(s: State, account: string, source: Source, op: string, i: nat)
    requires BucketsOk(s) && BucketsBalanced(s) && i < |s.buckets|
    ensures var b := Drained(s.buckets, account, source)[i];
      SumFor(ExpireBuckets(s, account, source, op).ledger, b.id) == b.remaining
  {
    assert s.buckets[i] in s.buckets;
    DrainOfBucket(s.buckets, account, source, op, i);
    SumConcat(s.ledger, DrainEntries(s.buckets, account, source, op), s.buckets[i].id, account);
  }

  lemma ExpireSparesFreshIds(s: State, account: string, source: Source, op: string, id: nat)
    requires BucketsOk(s) && BucketsBalanced(s) && id >= s.nextBucket
    ensures SumFor(ExpireBuckets(s, account, source, op).ledger, id) == 0
  {
    DrainOfStranger(s.buckets, account, source, op, id);
    SumConcat(s.ledger, DrainEntries(s.buckets, account, source, op), id, account);
  }

  lemma ExpireConserves(s: State, account: string, source: Source, op: string)
    requires Conserved(s)
    ensures Conserved(ExpireBuckets(s, account, source, op))
  {
    var t := ExpireBuckets(s, account, source, op);
    ExpireKeepsBucketsOk(s, account, source, op);
    ExpireKeepsBucketsBalanced(s, account, source, op);
    forall a | !IsTombstone(t, a) ensures SumOf(t.ledger, a) == Remaining(t.buckets, a) {
      DrainOfAccount(s.buckets, account, source, op, a);
      SumConcat(s.ledger, DrainEntries(s.buckets, account, source, op), 0, a);
    }
  }

  /** A refund keeps the books balanced exactly when its amount is not negative. */
  lemma RefundConservesIff(s: State, at: nat, amount: int)
    requires Conserved(s) && at < |s.buckets|
    ensures Conserved(Refunded(s, at, amount)) <==> amount >= 0
  {
    var b := s.buckets[at];
    var clawback := Min(amount, b.remaining);
    var t := Refunded(s, at, amount);
    var e := Entry(b.account, "refund_purchased", -clawback, Some(b.id));
    assert b in s.buckets;
    SumAppend(s.ledger, e, b.id, b.account);
    if amount >= 0 {
      RefundConserves(s, at, amount);
    } else {
      assert b in t.buckets && SumFor(t.ledger, b.id) != b.remaining;
    }
  }

  lemma RefundConserves(s: State, at: nat, amount: int)
    requires Conserved(s) && at < |s.buckets| && amount >= 0
    ensures Conserved(Refunded(s, at, amount))
  {
    var b := s.buckets[at];
    var clawback := Min(amount, b.remaining);
    var t := Refunded(s, at, amount);
    var e := Entry(b.account, "refund_purchased", -clawback, Some(b.id));
    assert b in s.buckets;
    assert t.buckets == s.buckets[at := b.(remaining := b.remaining - clawback)];
    forall id: nat, a: string
      ensures SumFor(t.ledger, id) == SumFor(s.ledger, id) - (if id == b.id then clawback else 0)
      ensures SumOf(t.ledger, a) == SumOf(s.ledger, a) - (if a == b.account then clawback else 0)
      ensures Remaining(t.buckets, a) == Remaining(s.buckets, a) - (if a == b.account then clawback else 0)
    {
      SumAppend(s.ledger, e, id, a);
      RemainingUpdate(s.buckets, at, b.remaining - clawback, a);
    }
    forall x | x in t.buckets
      ensures SumFor(t.ledger, x.id) == x.remaining && x.id < t.nextBucket && 0 <= x.remaining <= x.granted {
      var i :| 0 <= i < |t.buckets| && t.buckets[i] == x;
      assert s.buckets[i] in s.buckets;
    }
  }

  // ---------------------------------------------------------------- erasure

  lemma {:induction false} ClearKeepsAccountSum(ledger: seq<Entry>, ids: set<nat>, account: string)
    ensures SumOf(ClearReferences(ledger, ids), account) == SumOf(ledger, account)
  {
    if ledger != [] {
      var n := |ledger| - 1;
      ClearKeepsAccountSum(ledger[..n], ids, account);
      assert ClearReferences(ledger, ids)[..n] == ClearReferences(ledger[..n], ids);
    }
  }

  lemma {:induction false} ClearKeepsOtherBuckets(ledger: seq<Entry>, ids: set<nat>, id: nat)
    requires id !in ids
    ensures SumFor(ClearReferences(ledger, ids), id) == SumFor(ledger, id)
  {
    if ledger != [] {
      var n := |ledger| - 1;
      ClearKeepsOtherBuckets(ledger[..n], ids, id);
      assert ClearReferences(ledger, ids)[..n] == ClearReferences(ledger[..n], ids);
    }
  }

  ghost predicate IdsApart(buckets: seq<Bucket>) {
    forall i, j :: 0 <= i < j < |buckets| ==> buckets[i].id != buckets[j].id
  }

  lemma ApartById(buckets: seq<Bucket>, b: Bucket, o: Bucket)
    requires IdsApart(buckets) && b in buckets && o in buckets && b != o
    ensures b.id != o.id
  {
    var i :| 0 <= i < |buckets| && buckets[i] == b;
    var j :| 0 <= j < |buckets| && buckets[j] == o;
  }

  lemma {:induction false} WithoutAccountMembers(buckets: seq<Bucket>, account: string, b: Bucket)
    ensures b in WithoutAccount(buckets, account) <==> b in buckets && b.account != account
  {
    if buckets != [] {
      var n := |buckets| - 1;
      assert buckets == buckets[..n] + [buckets[n]];
      WithoutAccountMembers(buckets[..n], account, b);
    }
  }

  lemma {:induction false} WithoutAccountRemaining(buckets: seq<Bucket>, account: string, a: string)
    requires a != account
    ensures Remaining(WithoutAccount(buckets, account), a) == Remaining(buckets, a)
  {
    if buckets != [] {
      var n := |buckets| - 1;
      WithoutAccountRemaining(buckets[..n], account, a);
      RemainingAppend(WithoutAccount(buckets[..n], account), buckets[n], a);
    }
  }

  lemma {:induction false} WithoutAccountApart(buckets: seq<Bucket>, account: string)
    requires IdsApart(buckets)
    ensures IdsApart(WithoutAccount(buckets, account))
  {
    if buckets != [] {
      var n := |buckets| - 1;
      WithoutAccountApart(buckets[..n], account);
      forall x | x in WithoutAccount(buckets[..n], account) ensures x.id != buckets[n].id {
        WithoutAccountMembers(buckets[..n], account, x);
        var i :| 0 <= i < n && buckets[i] == x;
      }
    }
  }

  /** Erasure keeps every ledger delta, of the erased account too, and everyone else's books. */
  lemma DeleteConserves(s: State, account: string, at: int)
    requires Conserved(s) && account in s.accounts
    ensures Conserved(DeleteAccount(s, account, at))
    ensures forall a :: SumOf(DeleteAccount(s, account, at).ledger, a) == SumOf(s.ledger, a)
  {
    var t := DeleteAccount(s, account, at);
    var ids := BucketIdsOf(s.buckets, account);
    WithoutAccountApart(s.buckets, account);
    forall a ensures SumOf(t.ledger, a) == SumOf(s.ledger, a) {
      ClearKeepsAccountSum(s.ledger, ids, a);
    }
    forall b | b in t.buckets ensures SumFor(t.ledger, b.id) == b.remaining && b in s.buckets {
      WithoutAccountMembers(s.buckets, account, b);
      forall o | o in s.buckets && o.account == account ensures o.id != b.id {
        ApartById(s.buckets, o, b);
      }
      ClearKeepsOtherBuckets(s.ledger, ids, b.id);
    }
    forall id | id >= t.nextBucket ensures SumFor(t.ledger, id) == 0 {
      forall o | o in s.buckets ensures o.id != id {}
      ClearKeepsOtherBuckets(s.ledger, ids, id);
    }
    forall a | !IsTombstone(t, a) ensures SumOf(t.ledger, a) == Remaining(t.buckets, a) {
      WithoutAccountRemaining(s.buckets, account, a);
    }
  }

  // ---------------------------------------------------------------- the handlers conserve

  lemma CheckoutConserves(s: State, obj: Object)
    requires Conserved(s) && OnCheckoutCompleted(s, obj).Applied?
    ensures Conserved(OnCheckoutCompleted(s, obj).state)
  {
    var found := AccountForEvent(s, obj.metaAccount, obj.customer);
    if found.Found? {
      var attached :=
        if Truthy(obj.customer) && !Truthy(s.accounts[found.account].customer)
          then AttachCustomer(s, found.account, obj.customer) else s;
      SameMoneyConserves(s, attached);
      var ref := OrElse(obj.paymentIntent, obj.id);
      if obj.isTopup && TopupCredits(obj) > 0
        && GrantBucket(attached, found.account, Purchased, TopupCredits(obj), "topup", None, ref).Granted? {
        GrantConserves(attached, found.account, Purchased, TopupCredits(obj), "topup", None, ref);
      }
    }
  }

  lemma UpsertConserves(s: State, obj: Object)
    requires Conserved(s) && OnSubscriptionUpserted(s, obj).Applied?
    ensures Conserved(OnSubscriptionUpserted(s, obj).state)
  {
    var found := AccountForEvent(s, obj.metaAccount, obj.customer);
    if found.Found? {
      var key := SubscriptionKey(obj);
      var created := key !in s.subs;
      AuditConserves(s, found.account, "subscription_started");
      var started := if created then Audit(s, found.account, "subscription_started") else s;
      var stored := started.(subs := started.subs[key := UpsertedRow(s, found.account, obj)]);
      SameMoneyConserves(started, stored);
      AuditConserves(stored, found.account, "subscription_canceled_at_period_end");
      var noted :=
        if UpsertedRow(s, found.account, obj).cancelAtPeriodEnd && !created && !s.subs[key].cancelAtPeriodEnd
        then Audit(stored, found.account, "subscription_canceled_at_period_end") else stored;
      SameMoneyConserves(noted, OnSubscriptionUpserted(s, obj).state);
    }
  }

  lemma SubscriptionDeletedConserves(s: State, obj: Object)
    requires Conserved(s) && OnSubscriptionDeleted(s, obj).Applied?
    ensures Conserved(OnSubscriptionDeleted(s, obj).state)
  {
    var key := SubscriptionKey(obj);
    if key in s.subs {
      var row := s.subs[key];
      var canceled := SetStatus(s, key, Canceled);
      SameMoneyConserves(s, canceled);
      if row.account in s.accounts {
        var op := if row.cancelAtPeriodEnd then "subscription_ended" else "subscription_canceled_immediate";
        AuditConserves(canceled, row.account, op);
        var noted := Audit(canceled, row.account, op);
        ExpireConserves(noted, row.account, SubscriberMonthly, EXPIRE_MONTHLY);
        var expired := ExpireBuckets(noted, row.account, SubscriberMonthly, EXPIRE_MONTHLY);
        SameMoneyConserves(expired, RefreshTier(expired, row.account));
      }
    }
  }

  lemma InvoicePaidConserves(settings: Settings, s: State, obj: Object)
    requires Conserved(s) && OnInvoicePaid(settings, s, obj).Applied?
    ensures Conserved(OnInvoicePaid(settings, s, obj).state)
  {
    var reference := InvoiceSubscriptionId(obj);
    if Truthy(reference) && InvoiceAccount(s, reference.value, obj).Found? {
      var key := reference.value;
      var account := InvoiceAccount(s, key, obj).account;
      RenewedConserves(s, key, account, obj);
      var renewed := Renewed(s, key, account, obj);
      ExpireConserves(renewed, account, SubscriberMonthly, EXPIRE_MONTHLY);
      var expired := ExpireBuckets(renewed, account, SubscriberMonthly, EXPIRE_MONTHLY);
      if GrantMonthly(settings, expired, account, AllowanceEnd(s, key, obj), obj.id).Granted? {
        GrantConserves(expired, account, SubscriberMonthly, settings.monthlyCredits, "grant_subscriber_monthly",
                       AllowanceEnd(s, key, obj), obj.id);
      }
    }
  }

  lemma RenewedConserves(s: State, key: string, account: string, obj: Object)
    requires Conserved(s) && account in s.accounts
    ensures Conserved(Renewed(s, key, account, obj))
  {
    var recovered := Recovered(s, key, account);
    SameMoneyConserves(s, recovered);
    AuditConserves(recovered, account, "subscription_renewed");
  }

  lemma PaymentFailedConserves(s: State, obj: Object)
    requires Conserved(s) && OnInvoicePaymentFailed(s, obj).Applied?
    ensures Conserved(OnInvoicePaymentFailed(s, obj).state)
  {
    var reference := InvoiceSubscriptionId(obj);
    if Truthy(reference) && reference.value in s.subs {
      var row := s.subs[reference.value];
      var lapsed := if row.status == Active then SetStatus(s, reference.value, PastDue) else s;
      SameMoneyConserves(s, lapsed);
      AuditConserves(lapsed, row.account, "subscription_payment_failed");
    }
  }

  /** Amounts Stripe reports are not negative. */
  predicate SaneStep(step: Step) {
    step.Webhook? && step.kind.ChargeRefunded? ==> step.obj.amountRefunded >= 0
  }

  lemma HandlerConserves(settings: Settings, s: State, kind: Kind, obj: Object)
    requires Conserved(s) && SaneStep(Webhook(kind, obj)) && Handler(settings, s, kind, obj).Applied?
    ensures Conserved(Handler(settings, s, kind, obj).state)
  {
    match kind
    case CheckoutCompleted => CheckoutConserves(s, obj);
    case SubscriptionCreated => UpsertConserves(s, obj);
    case SubscriptionUpdated => UpsertConserves(s, obj);
    case SubscriptionDeleted => SubscriptionDeletedConserves(s, obj);
    case InvoicePaid => InvoicePaidConserves(settings, s, obj);
    case InvoicePaymentFailed => PaymentFailedConserves(s, obj);
    case ChargeRefunded =>
      if Truthy(obj.paymentIntent) && BucketAt(s.buckets, obj.paymentIntent.value).Some? {
        RefundConserves(s, BucketAt(s.buckets, obj.paymentIntent.value).value, obj.amountRefunded);
      }
    case Unhandled =>
  }

  lemma StepConserves(settings: Settings, s: State, step: Step)
    requires Conserved(s) && SaneStep(step)
    ensures Conserved(Next(settings, s, step))
  {
    match step
    case SignUp(a) => SameMoneyConserves(s, Next(settings, s, step));
    case Checkout(a, customer) => SameMoneyConserves(s, Next(settings, s, step));
    case Webhook(kind, obj) =>
      if HandleStripeEvent(settings, s, kind, obj).Applied? && !kind.Unhandled? && !TouchesTombstone(s, obj) {
        HandlerConserves(settings, s, kind, obj);
      }
    case Delete(a, at) => if a in s.accounts { DeleteConserves(s, a, at); }
  }

  /** Over every run of sign-ups, webhooks and erasures, the ledger accounts for every credit. */
  lemma {:induction false} RunConserves(settings: Settings, s: State, steps: seq<Step>)
    requires Conserved(s) && forall step :: step in steps ==> SaneStep(step)
    ensures Conserved(Run(settings, s, steps))
    decreases |steps|
  {
    if steps != [] {
      assert steps[0] in steps;
      StepConserves(settings, s, steps[0]);
      RunConserves(settings, Next(settings, s, steps[0]), steps[1..]);
    }
  }

  // ---------------------------------------------------------------- the wallet

  predicate Lapsed(b: Bucket, now: int) {
    b.expiresAt.Some? && b.expiresAt.value <= now
  }

  /** What `wallet_balances` reports as the total: live credits of buckets that have not lapsed. */
  function WalletTotal(buckets: seq<Bucket>, account: string, now: int): int {
    if buckets == [] then 0
    else
      var b := buckets[|buckets| - 1];
      WalletTotal(buckets[..|buckets| - 1], account, now) +
      (if b.account == account && b.remaining > 0 && !Lapsed(b, now) then b.remaining else 0)
  }

  /** Credits stranded in buckets that lapsed before a sweep wrote them off. */
  function LapsedTotal(buckets: seq<Bucket>, account: string, now: int): int {
    if buckets == [] then 0
    else
      var b := buckets[|buckets| - 1];
      LapsedTotal(buckets[..|buckets| - 1], account, now) +
      (if b.account == account && b.remaining > 0 && Lapsed(b, now) then b.remaining else 0)
  }

  lemma {:induction false} WalletSplits(buckets: seq<Bucket>, account: string, now: int)
    requires forall b :: b in buckets ==> b.remaining >= 0
    ensures WalletTotal(buckets, account, now) + LapsedTotal(buckets, account, now) == Remaining(buckets, account)
  {
    if buckets != [] {
      assert buckets[|buckets| - 1] in buckets;
      forall b | b in buckets[..|buckets| - 1] ensures b in buckets {}
      WalletSplits(buckets[..|buckets| - 1], account, now);
    }
  }

  /** In every reachable state a living account's wallet is its ledger sum less what has lapsed. */
  lemma WalletMatchesLedger(settings: Settings, s: State, steps: seq<Step>, account: string, now: int)
    requires Init(s) && forall step :: step in steps ==> SaneStep(step)
    requires !IsTombstone(Run(settings, s, steps), account)
    ensures var t := Run(settings, s, steps);
            WalletTotal(t.buckets, account, now) == SumOf(t.ledger, account) - LapsedTotal(t.buckets, account, now)
  {
    RunConserves(settings, s, steps);
    WalletSplits(Run(settings, s, steps).buckets, account, now);
  }
}
