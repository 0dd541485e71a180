// At most one grant per Stripe ref, at most one live monthly allowance per account, and the tier.
module BillingGrants {
  import opened Wrappers
  import opened Billing
  import opened BillingLedger
  import opened BillingGuard

  // ---------------------------------------------------------------- one grant per ref

  ghost predicate RefsUnique(buckets: seq<Bucket>) {
    forall i, j :: 0 <= i < j < |buckets| && buckets[i].ref.Some? ==> buckets[i].ref != buckets[j].ref
  }

  ghost predicate HasGrant(s: State, account: string, ref: string) {
    exists b :: b in s.buckets && b.account == account && b.ref == Some(ref)
  }

  /** Granting again is a no-op exactly when the ref is a non-empty string: with no ref there is no idempotency. */
  lemma GrantTwiceIffRef(s: State, account: string, source: Source, credits: int, op: string, expiresAt: Option<int>,
                         ref: Option<string>)
    requires GrantBucket(s, account, source, credits, op, expiresAt, ref).Granted?
    ensures var once := GrantBucket(s, account, source, credits, op, expiresAt, ref).state;
            var again := GrantBucket(once, account, source, credits, op, expiresAt, ref);
            && (again.Duplicate? <==> Truthy(ref))
            && (again.Granted? <==> ref == None)
  {
    var once := GrantBucket(s, account, source, credits, op, expiresAt, ref).state;
    var b := Bucket(s.nextBucket, account, source, credits, credits, expiresAt, ref);
    assert once.buckets[|once.buckets| - 1] == b;
  }

  lemma {:induction false} RefsUniqueUnderErasure(buckets: seq<Bucket>, account: string)
    requires RefsUnique(buckets)
    ensures RefsUnique(WithoutAccount(buckets, account))
  {
    if buckets != [] {
      var n := |buckets| - 1;
      RefsUniqueUnderErasure(buckets[..n], account);
      forall b | b in WithoutAccount(buckets[..n], account) && b.ref.Some? ensures b.ref != buckets[n].ref {
        WithoutAccountMembers(buckets[..n], account, b);
        var i :| 0 <= i < n && buckets[i] == b;
      }
    }
  }

  lemma GrantKeepsRefsUnique(s: State, account: string, source: Source, credits: int, op: string,
                             expiresAt: Option<int>, ref: Option<string>)
    requires RefsUnique(s.buckets) && GrantBucket(s, account, source, credits, op, expiresAt, ref).Granted?
    ensures RefsUnique(GrantBucket(s, account, source, credits, op, expiresAt, ref).state.buckets)
  {
    forall i | 0 <= i < |s.buckets| && s.buckets[i].ref.Some? ensures s.buckets[i].ref != ref {
      assert s.buckets[i] in s.buckets;
    }
  }

  /** How a handler changes the bucket table: in place, or in place and then one grant. */
  ghost predicate InPlace(buckets: seq<Bucket>, to: seq<Bucket>) {
    && |to| == |buckets|
    && forall i :: 0 <= i < |buckets| ==>
         && to[i].id == buckets[i].id && to[i].account == buckets[i].account && to[i].ref == buckets[i].ref
         && to[i].source == buckets[i].source
         && (buckets[i].remaining <= 0 ==> to[i].remaining <= 0)
  }

  /** No bucket with credits left is a monthly allowance of this account. */
  ghost predicate NoLiveMonthly(buckets: seq<Bucket>, account: string) {
    forall b :: b in buckets ==> !IsLive(b, account, SubscriberMonthly)
  }

  /** The bucket a handler may append, after what it did in place. */
  ghost predicate GrantedOnto(mid: State, t: State) {
    exists account, source, credits, op, expiresAt, ref ::
      && GrantBucket(mid, account, source, credits, op, expiresAt, ref) == Granted(t)
      && (source == SubscriberMonthly ==> NoLiveMonthly(mid.buckets, account))
  }

  ghost predicate BucketStep(s: State, t: State) {
    InPlace(s.buckets, t.buckets) || exists mid: State :: InPlace(s.buckets, mid.buckets) && GrantedOnto(mid, t)
  }

  lemma HandlerBucketStep(settings: Settings, s: State, kind: Kind, obj: Object)
    requires Handler(settings, s, kind, obj).Applied?
    ensures BucketStep(s, Handler(settings, s, kind, obj).state)
  {
    match kind
    case CheckoutCompleted => CheckoutBucketStep(s, obj);
    case InvoicePaid => InvoiceBucketStep(settings, s, obj);
    case _ =>
  }

  lemma CheckoutBucketStep(s: State, obj: Object)
    requires OnCheckoutCompleted(s, obj).Applied?
    ensures BucketStep(s, OnCheckoutCompleted(s, obj).state)
  {
    var found := AccountForEvent(s, obj.metaAccount, obj.customer);
    if found.Found? {
      var account := found.account;
      var attached :=
        if Truthy(obj.customer) && !Truthy(s.accounts[account].customer) then AttachCustomer(s, account, obj.customer)
          else s;
      var ref := OrElse(obj.paymentIntent, obj.id);
      var t := OnCheckoutCompleted(s, obj).state;
      if t.buckets != s.buckets {
        assert GrantBucket(attached, account, Purchased, TopupCredits(obj), "topup", None, ref) == Granted(t);
        assert GrantedOnto(attached, t);
      }
    }
  }

  lemma InvoiceBucketStep(settings: Settings, s: State, obj: Object)
    requires OnInvoicePaid(settings, s, obj).Applied?
    ensures BucketStep(s, OnInvoicePaid(settings, s, obj).state)
  {
    var reference := InvoiceSubscriptionId(obj);
    if Truthy(reference) && InvoiceAccount(s, reference.value, obj).Found? {
      var key := reference.value;
      var account := InvoiceAccount(s, key, obj).account;
      if !(Truthy(obj.id) && BucketAt(s.buckets, obj.id.value).Some?) {
        var renewed := Renewed(s, key, account, obj);
        var expired := ExpireBuckets(renewed, account, SubscriberMonthly, EXPIRE_MONTHLY);
        assert renewed.buckets == s.buckets;
        MonthlyGrantStep(settings, s, expired, account, AllowanceEnd(s, key, obj), obj.id);
      }
    }
  }

  lemma MonthlyGrantStep(settings: Settings, s: State, expired: State, account: string, periodEnd: Option<int>,
                         ref: Option<string>)
    requires expired.buckets == Drained(s.buckets, account, SubscriberMonthly)
    ensures BucketStep(s, expired)
    ensures GrantMonthly(settings, expired, account, periodEnd, ref).Granted? ==>
              BucketStep(s, GrantMonthly(settings, expired, account, periodEnd, ref).state)
  {
    DrainedInPlace(s.buckets, account);
    if GrantMonthly(settings, expired, account, periodEnd, ref).Granted? {
      MonthlyGrantIsOne(settings, expired, account, periodEnd, ref);
    }
  }

  lemma DrainedInPlace(buckets: seq<Bucket>, account: string)
    ensures InPlace(buckets, Drained(buckets, account, SubscriberMonthly))
    ensures NoLiveMonthly(Drained(buckets, account, SubscriberMonthly), account)
  {
  }

  lemma MonthlyGrantIsOne(settings: Settings, expired: State, account: string, periodEnd: Option<int>,
                          ref: Option<string>)
    requires NoLiveMonthly(expired.buckets, account)
    requires GrantMonthly(settings, expired, account, periodEnd, ref).Granted?
    ensures GrantedOnto(expired, GrantMonthly(settings, expired, account, periodEnd, ref).state)
  {
    assert GrantBucket(expired, account, SubscriberMonthly, settings.monthlyCredits, "grant_subscriber_monthly",
                       periodEnd, ref)
        == Granted(GrantMonthly(settings, expired, account, periodEnd, ref).state);
  }

  /** At most one monthly allowance of an account has credits left. */
  ghost predicate OneLiveMonthly(buckets: seq<Bucket>) {
    forall i, j, a ::
      0 <= i < j < |buckets| && IsLive(buckets[i], a, SubscriberMonthly) ==> !IsLive(buckets[j], a, SubscriberMonthly)
  }

  ghost predicate GrantsOk(s: State) {
    RefsUnique(s.buckets) && OneLiveMonthly(s.buckets)
  }

  lemma InPlaceKeepsGrants(buckets: seq<Bucket>, to: seq<Bucket>)
    requires RefsUnique(buckets) && OneLiveMonthly(buckets) && InPlace(buckets, to)
    ensures RefsUnique(to) && OneLiveMonthly(to)
  {
    forall i, j, a | 0 <= i < j < |to| && IsLive(to[i], a, SubscriberMonthly)
      ensures !IsLive(to[j], a, SubscriberMonthly) {
      assert IsLive(buckets[i], a, SubscriberMonthly);
      assert !IsLive(buckets[j], a, SubscriberMonthly);
    }
  }

  lemma BucketStepKeepsGrants(s: State, t: State)
    requires GrantsOk(s) && BucketStep(s, t)
    ensures GrantsOk(t)
  {
    if InPlace(s.buckets, t.buckets) {
      InPlaceKeepsGrants(s.buckets, t.buckets);
    } else {
      var mid: State :| InPlace(s.buckets, mid.buckets) && GrantedOnto(mid, t);
      InPlaceKeepsGrants(s.buckets, mid.buckets);
      var account, source, credits, op, expiresAt, ref :|
        GrantBucket(mid, account, source, credits, op, expiresAt, ref) == Granted(t)
        && (source == SubscriberMonthly ==> NoLiveMonthly(mid.buckets, account));
      GrantKeepsRefsUnique(mid, account, source, credits, op, expiresAt, ref);
      var n := |mid.buckets|;
      forall i, j, a | 0 <= i < j < |t.buckets| && IsLive(t.buckets[i], a, SubscriberMonthly)
        ensures !IsLive(t.buckets[j], a, SubscriberMonthly) {
        assert t.buckets[i] == mid.buckets[i] && mid.buckets[i] in mid.buckets;
      }
    }
  }

  lemma {:induction false} ErasureKeepsOneLiveMonthly(buckets: seq<Bucket>, account: string)
    requires OneLiveMonthly(buckets)
    ensures OneLiveMonthly(WithoutAccount(buckets, account))
  {
    if buckets != [] {
      var n := |buckets| - 1;
      var earlier := WithoutAccount(buckets[..n], account);
      ErasureKeepsOneLiveMonthly(buckets[..n], account);
      forall b, a | b in earlier && IsLive(b, a, SubscriberMonthly) ensures !IsLive(buckets[n], a, SubscriberMonthly) {
        WithoutAccountMembers(buckets[..n], account, b);
        var i :| 0 <= i < n && buckets[i] == b;
      }
      var all := WithoutAccount(buckets, account);
      forall i, j, a | 0 <= i < j < |all| && IsLive(all[i], a, SubscriberMonthly)
        ensures !IsLive(all[j], a, SubscriberMonthly) {
        assert all[i] == earlier[i] && earlier[i] in earlier;
      }
    }
  }

  lemma StepKeepsGrants(settings: Settings, s: State, step: Step)
    requires GrantsOk(s)
    ensures GrantsOk(Next(settings, s, step))
  {
    match step
    case SignUp(a) =>
    case Checkout(a, customer) =>
    case Webhook(kind, obj) =>
      if HandleStripeEvent(settings, s, kind, obj).Applied? && !kind.Unhandled? && !TouchesTombstone(s, obj) {
        HandlerBucketStep(settings, s, kind, obj);
        BucketStepKeepsGrants(s, Handler(settings, s, kind, obj).state);
      }
    case Delete(a, at) =>
      if a in s.accounts {
        RefsUniqueUnderErasure(s.buckets, a);
        ErasureKeepsOneLiveMonthly(s.buckets, a);
      }
  }

  /** In every reachable state no two buckets share a ref and no account has two live monthly allowances. */
  lemma {:induction false} RunKeepsGrants(settings: Settings, s: State, steps: seq<Step>)
    requires GrantsOk(s)
    ensures GrantsOk(Run(settings, s, steps))
    decreases |steps|
  {
    if steps != [] {
      StepKeepsGrants(settings, s, steps[0]);
      RunKeepsGrants(settings, Next(settings, s, steps[0]), steps[1..]);
    }
  }

  // ---------------------------------------------------------------- redelivery

  /** The ref under which an event grants, when it is one that grants. */
  function GrantRef(kind: Kind, obj: Object): Option<string> {
    if kind.InvoicePaid? then obj.id
    else if kind.CheckoutCompleted? && obj.isTopup then OrElse(obj.paymentIntent, obj.id)
    else None
  }

  predicate IsGrant(disposition: string) {
    disposition == "grant-issued" || disposition == "topup-granted"
  }

  lemma GrantedLast(s: State, account: string, source: Source, credits: int, op: string, expiresAt: Option<int>,
                    ref: string)
    requires GrantBucket(s, account, source, credits, op, expiresAt, Some(ref)).Granted?
    ensures HasGrant(GrantBucket(s, account, source, credits, op, expiresAt, Some(ref)).state, account, ref)
  {
    var t := GrantBucket(s, account, source, credits, op, expiresAt, Some(ref)).state;
    assert t.buckets[|t.buckets| - 1] in t.buckets;
  }

  lemma InvoiceGrantRecorded(settings: Settings, s: State, obj: Object)
    requires OnInvoicePaid(settings, s, obj).Applied? && IsGrant(OnInvoicePaid(settings, s, obj).disposition)
    requires Truthy(obj.id)
    ensures exists account :: HasGrant(OnInvoicePaid(settings, s, obj).state, account, obj.id.value)
  {
    var key := InvoiceSubscriptionId(obj).value;
    var account := InvoiceAccount(s, key, obj).account;
    var expired := ExpireBuckets(Renewed(s, key, account, obj), account, SubscriberMonthly, EXPIRE_MONTHLY);
    GrantedLast(expired, account, SubscriberMonthly, settings.monthlyCredits, "grant_subscriber_monthly",
                AllowanceEnd(s, key, obj), obj.id.value);
  }

  lemma TopupGrantRecorded(s: State, obj: Object)
    requires OnCheckoutCompleted(s, obj).Applied? && IsGrant(OnCheckoutCompleted(s, obj).disposition)
    requires Truthy(OrElse(obj.paymentIntent, obj.id))
    ensures exists account ::
      HasGrant(OnCheckoutCompleted(s, obj).state, account, OrElse(obj.paymentIntent, obj.id).value)
  {
    var account := AccountForEvent(s, obj.metaAccount, obj.customer).account;
    var attached :=
      if Truthy(obj.customer) && !Truthy(s.accounts[account].customer) then AttachCustomer(s, account, obj.customer)
        else s;
    GrantedLast(attached, account, Purchased, TopupCredits(obj), "topup", None,
                OrElse(obj.paymentIntent, obj.id).value);
  }

  /** A granting delivery records its ref with the account it credited. */
  lemma GrantIsRecorded(settings: Settings, s: State, kind: Kind, obj: Object)
    requires HandleStripeEvent(settings, s, kind, obj).Applied?
    requires IsGrant(HandleStripeEvent(settings, s, kind, obj).disposition) && Truthy(GrantRef(kind, obj))
    ensures exists account ::
      HasGrant(HandleStripeEvent(settings, s, kind, obj).state, account, GrantRef(kind, obj).value)
  {
    if kind.InvoicePaid? {
      InvoiceGrantRecorded(settings, s, obj);
    } else {
      TopupGrantRecorded(s, obj);
    }
  }

  lemma InvoiceRedelivery(settings: Settings, s: State, obj: Object)
    requires Truthy(obj.id) && BucketAt(s.buckets, obj.id.value).Some?
    ensures var r := OnInvoicePaid(settings, s, obj); r.Applied? ==> r.state == s
  {
  }

  lemma TopupRedelivery(s: State, obj: Object)
    requires obj.isTopup && Truthy(OrElse(obj.paymentIntent, obj.id))
    requires BucketAt(s.buckets, OrElse(obj.paymentIntent, obj.id).value).Some?
    ensures var r := OnCheckoutCompleted(s, obj);
      r.Applied? ==> r.state.buckets == s.buckets && r.state.ledger == s.ledger && r.state.nextBucket == s.nextBucket
  {
  }

  /** While the bucket exists, delivering its event again moves no credit. */
  lemma RedeliveryIsInert(settings: Settings, s: State, kind: Kind, obj: Object, account: string)
    requires Truthy(GrantRef(kind, obj)) && HasGrant(s, account, GrantRef(kind, obj).value)
    ensures var t := Next(settings, s, Webhook(kind, obj));
            t.buckets == s.buckets && t.ledger == s.ledger && t.nextBucket == s.nextBucket
  {
    var ref := GrantRef(kind, obj).value;
    var b :| b in s.buckets && b.account == account && b.ref == Some(ref);
    assert BucketAt(s.buckets, ref).Some?;
    if kind.InvoicePaid? { InvoiceRedelivery(settings, s, obj); } else { TopupRedelivery(s, obj); }
  }

}
