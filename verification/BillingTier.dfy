// An account's tier mirrors its subscriptions: which events keep that true, and exactly when one does not.
module BillingTier {
  import opened Wrappers
  import opened Billing
  import opened BillingLedger
  import opened BillingGuard

  /** Subscribed if and only if a subscription row of the account is not canceled. */
  ghost predicate TierExact(s: State, a: string) {
    a in s.accounts ==> (s.accounts[a].tier == Subscribed <==> HasLiveSubscription(s, a))
  }

  ghost predicate TiersExact(s: State) {
    forall a :: a in s.accounts ==> TierExact(s, a)
  }

  /** A subscription event whose metadata or customer resolves to another account than the row it updates. */
  predicate Disagrees(s: State, kind: Kind, obj: Object) {
    && (kind.SubscriptionCreated? || kind.SubscriptionUpdated?)
    && SubscriptionKey(obj) in s.subs
    && AccountForEvent(s, obj.metaAccount, obj.customer).Found?
    && AccountForEvent(s, obj.metaAccount, obj.customer).account != s.subs[SubscriptionKey(obj)].account
  }

  /** Only the liveness of subscriptions matters, not who else is in the table. */
  ghost predicate SameLiveness(s: State, t: State, a: string) {
    HasLiveSubscription(s, a) <==> HasLiveSubscription(t, a)
  }

  lemma SetStatusLiveness(s: State, key: string, status: SubscriptionStatus, a: string)
    requires key in s.subs
    requires s.subs[key].account != a || (s.subs[key].status == Canceled <==> status == Canceled)
    ensures SameLiveness(s, SetStatus(s, key, status), a)
  {
    var t := SetStatus(s, key, status);
    if HasLiveSubscription(s, a) {
      var ref :| ref in s.subs && s.subs[ref].account == a && s.subs[ref].status != Canceled;
      assert ref in t.subs && t.subs[ref].account == a && t.subs[ref].status != Canceled;
    }
  }

  /** A step that touches one account's subscriptions and then refreshes it. */
  lemma RefreshRestores(s: State, t: State, account: string)
    requires TiersExact(s) && account in t.accounts
    requires forall a :: a in t.accounts && a != account ==>
               a in s.accounts && t.accounts[a].tier == s.accounts[a].tier && SameLiveness(s, t, a)
    ensures TiersExact(RefreshTier(t, account))
  {
    var u := RefreshTier(t, account);
    forall a | a in u.accounts ensures TierExact(u, a) {
      assert SameLiveness(t, u, a);
      if a != account { assert TierExact(s, a); }
    }
  }

  lemma QuietKeepsTiers(s: State, t: State)
    requires TiersExact(s) && t.subs == s.subs && t.accounts.Keys == s.accounts.Keys
    requires forall a :: a in t.accounts ==> t.accounts[a].tier == s.accounts[a].tier
    ensures TiersExact(t)
  {
    forall a | a in t.accounts ensures TierExact(t, a) {
      assert TierExact(s, a);
      assert SameLiveness(s, t, a);
    }
  }

  lemma UpsertLiveness(s: State, key: string, row: Subscription, a: string)
    requires row.account != a && (key in s.subs ==> s.subs[key].account != a)
    ensures SameLiveness(s, s.(subs := s.subs[key := row]), a)
  {
    var t := s.(subs := s.subs[key := row]);
    if HasLiveSubscription(s, a) {
      var ref :| ref in s.subs && s.subs[ref].account == a && s.subs[ref].status != Canceled;
      assert ref in t.subs && t.subs[ref].account == a && t.subs[ref].status != Canceled;
    }
  }

  /** The state an upsert reaches just before it refreshes the tier of the account it resolved. */
  lemma UpsertShape(s: State, obj: Object, account: string)
    requires AccountForEvent(s, obj.metaAccount, obj.customer) == Found(account)
    ensures exists t: State ::
              && OnSubscriptionUpserted(s, obj).Applied?
              && account in t.accounts
              && OnSubscriptionUpserted(s, obj).state == RefreshTier(t, account)
              && t.subs == s.subs[SubscriptionKey(obj) := UpsertedRow(s, account, obj)]
              && t.accounts.Keys == s.accounts.Keys
              && (forall a :: a in t.accounts ==> t.accounts[a].tier == s.accounts[a].tier)
  {
    var key := SubscriptionKey(obj);
    var created := key !in s.subs;
    var started := if created then Audit(s, account, "subscription_started") else s;
    var row := UpsertedRow(s, account, obj);
    var stored := started.(subs := started.subs[key := row]);
    var noted :=
      if row.cancelAtPeriodEnd && !created && !s.subs[key].cancelAtPeriodEnd
      then Audit(stored, account, "subscription_canceled_at_period_end") else stored;
    var attached :=
      if s.accounts[account].customer == None && Truthy(obj.customer) then AttachCustomer(noted, account, obj.customer)
        else noted;
    assert OnSubscriptionUpserted(s, obj).state == RefreshTier(attached, account);
    assert attached.subs == s.subs[key := row];
  }

  lemma UpsertKeepsTiers(s: State, obj: Object)
    requires TiersExact(s) && OnSubscriptionUpserted(s, obj).Applied?
    requires !Disagrees(s, SubscriptionUpdated, obj)
    ensures TiersExact(OnSubscriptionUpserted(s, obj).state)
  {
    var found := AccountForEvent(s, obj.metaAccount, obj.customer);
    if found.Found? {
      var account := found.account;
      var key := SubscriptionKey(obj);
      var row := UpsertedRow(s, account, obj);
      UpsertShape(s, obj, account);
      var t: State :|
        && account in t.accounts
        && OnSubscriptionUpserted(s, obj).state == RefreshTier(t, account)
        && t.subs == s.subs[key := row]
        && t.accounts.Keys == s.accounts.Keys
        && (forall a :: a in t.accounts ==> t.accounts[a].tier == s.accounts[a].tier);
      forall a | a in t.accounts && a != account ensures SameLiveness(s, t, a) {
        UpsertLiveness(s, key, row, a);
        assert SameLiveness(s.(subs := s.subs[key := row]), t, a);
      }
      RefreshRestores(s, t, account);
    }
  }

  /** No other live row of the owner than the one filed under `key`. */
  predicate OnlyLiveRow(s: State, key: string)
    requires key in s.subs
  {
    forall ref ::
      ref in s.subs && ref != key && s.subs[ref].account == s.subs[key].account ==> s.subs[ref].status == Canceled
  }

  /** A disagreeing event leaves the row owner's tier stale exactly when it flips the liveness of the owner's only live
      row. */
  lemma DisagreementStalesTierIff(s: State, obj: Object)
    requires TiersExact(s) && ForeignKeys(s)
    requires Disagrees(s, SubscriptionUpdated, obj)
    ensures var row := s.subs[SubscriptionKey(obj)];
            && OnSubscriptionUpserted(s, obj).Applied?
            && (!TierExact(OnSubscriptionUpserted(s, obj).state, row.account) <==>
                OnlyLiveRow(s, SubscriptionKey(obj)) && (row.status == Canceled <==> StatusOf(obj.status) != Canceled))
  {
    var account := AccountForEvent(s, obj.metaAccount, obj.customer).account;
    var key := SubscriptionKey(obj);
    var row := s.subs[key];
    var owner := row.account;
    UpsertShape(s, obj, account);
    var u := OnSubscriptionUpserted(s, obj).state;
    assert owner in u.accounts && u.accounts[owner].tier == s.accounts[owner].tier && TierExact(s, owner);
    assert u.subs == s.subs[key := UpsertedRow(s, account, obj)];
    if OnlyLiveRow(s, key) {
      assert HasLiveSubscription(s, owner) <==> row.status != Canceled by {
        if row.status != Canceled { assert key in s.subs; }
      }
      assert HasLiveSubscription(u, owner) <==> StatusOf(obj.status) != Canceled by {
        assert u.subs[key].account == owner && u.subs[key].status == StatusOf(obj.status);
      }
    } else {
      var ref :| ref in s.subs && ref != key && s.subs[ref].account == owner && s.subs[ref].status != Canceled;
      assert u.subs[ref] == s.subs[ref];
      assert HasLiveSubscription(s, owner) && HasLiveSubscription(u, owner);
    }
  }

  lemma DeletedKeepsTiers(s: State, obj: Object)
    requires TiersExact(s) && ForeignKeys(s) && OnSubscriptionDeleted(s, obj).Applied?
    ensures TiersExact(OnSubscriptionDeleted(s, obj).state)
  {
    var key := SubscriptionKey(obj);
    if key in s.subs {
      var row := s.subs[key];
      var canceled := SetStatus(s, key, Canceled);
      var noted :=
        Audit(canceled, row.account, if row.cancelAtPeriodEnd then "subscription_ended"
              else "subscription_canceled_immediate");
      var expired := ExpireBuckets(noted, row.account, SubscriberMonthly, EXPIRE_MONTHLY);
      forall a | a in expired.accounts && a != row.account ensures SameLiveness(s, expired, a) {
        SetStatusLiveness(s, key, Canceled, a);
        assert SameLiveness(canceled, expired, a);
      }
      RefreshRestores(s, expired, row.account);
    }
  }

  lemma RecoveredKeepsTiers(s: State, key: string, account: string)
    requires TiersExact(s) && account in s.accounts && (key in s.subs ==> s.subs[key].account == account)
    ensures TiersExact(Recovered(s, key, account))
  {
    if key in s.subs && s.subs[key].status == PastDue {
      var active := SetStatus(s, key, Active);
      forall a | a in active.accounts && a != account ensures SameLiveness(s, active, a) {
        SetStatusLiveness(s, key, Active, a);
      }
      RefreshRestores(s, active, account);
    }
  }

  lemma InvoicePaidKeepsTiers(settings: Settings, s: State, obj: Object)
    requires TiersExact(s) && OnInvoicePaid(settings, s, obj).Applied?
    ensures TiersExact(OnInvoicePaid(settings, s, obj).state)
  {
    var reference := InvoiceSubscriptionId(obj);
    if Truthy(reference) && InvoiceAccount(s, reference.value, obj).Found? {
      var key := reference.value;
      var account := InvoiceAccount(s, key, obj).account;
      RecoveredKeepsTiers(s, key, account);
      if !(Truthy(obj.id) && BucketAt(s.buckets, obj.id.value).Some?) {
        QuietKeepsTiers(Recovered(s, key, account), OnInvoicePaid(settings, s, obj).state);
      }
    }
  }

  /** Dunning grace: a failed payment makes an active row past due, which still counts as subscribed. */
  lemma PaymentFailedKeepsTiers(s: State, obj: Object)
    requires TiersExact(s) && OnInvoicePaymentFailed(s, obj).Applied?
    ensures TiersExact(OnInvoicePaymentFailed(s, obj).state)
  {
    var reference := InvoiceSubscriptionId(obj);
    if Truthy(reference) && reference.value in s.subs {
      var key := reference.value;
      var t := OnInvoicePaymentFailed(s, obj).state;
      var lapsed := if s.subs[key].status == Active then SetStatus(s, key, PastDue) else s;
      assert t.subs == lapsed.subs && t.accounts == s.accounts;
      forall a | a in t.accounts ensures TierExact(t, a) {
        assert TierExact(s, a);
        if s.subs[key].status == Active { SetStatusLiveness(s, key, PastDue, a); }
        assert SameLiveness(lapsed, t, a);
      }
    }
  }

  lemma DeleteKeepsTiers(s: State, account: string, at: int)
    requires TiersExact(s) && account in s.accounts
    ensures TiersExact(DeleteAccount(s, account, at))
  {
    var t := DeleteAccount(s, account, at);
    forall a | a in t.accounts ensures TierExact(t, a) {
      if a != account {
        assert TierExact(s, a);
        if HasLiveSubscription(s, a) {
          var ref :| ref in s.subs && s.subs[ref].account == a && s.subs[ref].status != Canceled;
          assert ref in t.subs;
        }
      }
    }
  }

  lemma SignUpKeepsTiers(s: State, a: string)
    requires TiersExact(s) && ForeignKeys(s) && a !in s.accounts
    ensures TiersExact(s.(accounts := s.accounts[a := Account(Free, None, None)]))
  {
    var t := s.(accounts := s.accounts[a := Account(Free, None, None)]);
    forall x | x in t.accounts ensures TierExact(t, x) {
      assert SameLiveness(s, t, x);
      if x != a { assert TierExact(s, x); }
    }
  }

  predicate Agreeable(s: State, step: Step) {
    step.Webhook? ==> !Disagrees(s, step.kind, step.obj)
  }

  lemma StepKeepsTiers(settings: Settings, s: State, step: Step)
    requires TiersExact(s) && ForeignKeys(s) && Agreeable(s, step)
    ensures TiersExact(Next(settings, s, step))
  {
    match step
    case SignUp(a) => if a !in s.accounts { SignUpKeepsTiers(s, a); }
    case Checkout(a, customer) => QuietKeepsTiers(s, Next(settings, s, step));
    case Webhook(kind, obj) =>
      if HandleStripeEvent(settings, s, kind, obj).Applied? && !kind.Unhandled? && !TouchesTombstone(s, obj) {
        HandlerKeepsTiers(settings, s, kind, obj);
      }
    case Delete(a, at) => if a in s.accounts { DeleteKeepsTiers(s, a, at); }
  }

  lemma CheckoutKeepsTiers(s: State, obj: Object)
    requires TiersExact(s) && OnCheckoutCompleted(s, obj).Applied?
    ensures TiersExact(OnCheckoutCompleted(s, obj).state)
  {
    QuietKeepsTiers(s, OnCheckoutCompleted(s, obj).state);
  }

  lemma HandlerKeepsTiers(settings: Settings, s: State, kind: Kind, obj: Object)
    requires TiersExact(s) && ForeignKeys(s) && !Disagrees(s, kind, obj) && Handler(settings, s, kind, obj).Applied?
    ensures TiersExact(Handler(settings, s, kind, obj).state)
  {
    match kind
    case CheckoutCompleted => CheckoutKeepsTiers(s, obj);
    case SubscriptionCreated => UpsertKeepsTiers(s, obj);
    case SubscriptionUpdated => UpsertKeepsTiers(s, obj);
    case SubscriptionDeleted => DeletedKeepsTiers(s, obj);
    case InvoicePaid => InvoicePaidKeepsTiers(settings, s, obj);
    case InvoicePaymentFailed => PaymentFailedKeepsTiers(s, obj);
    case ChargeRefunded => QuietKeepsTiers(s, Handler(settings, s, kind, obj).state);
    case Unhandled =>
  }

  ghost predicate AgreeableRun(settings: Settings, s: State, steps: seq<Step>)
    decreases |steps|
  {
    steps != [] ==> Agreeable(s, steps[0]) && AgreeableRun(settings, Next(settings, s, steps[0]), steps[1..])
  }

  /** Through grace, recovery, cancellation and erasure, the tier says exactly whether a live subscription exists. */
  lemma {:induction false} TierMirrorsSubscriptions(settings: Settings, s: State, steps: seq<Step>)
    requires TiersExact(s) && ForeignKeys(s) && AgreeableRun(settings, s, steps)
    ensures TiersExact(Run(settings, s, steps))
    decreases |steps|
  {
    if steps != [] {
      StepKeepsTiers(settings, s, steps[0]);
      StepKeepsForeignKeys(settings, s, steps[0]);
      TierMirrorsSubscriptions(settings, Next(settings, s, steps[0]), steps[1..]);
    }
  }

  // ---------------------------------------------------------------- a run that ends with a stale tier

  const CREATED := BARE.(id := Some("sub"), metaAccount := Some("a"), status := "active")
  const ENDED := BARE.(id := Some("sub"), metaAccount := Some("b"), status := "canceled")
  const STARTED := Entry("a", "subscription_started", 0, None)
  const TWO := NOTHING.(accounts := map["a" := Account(Free, None, None), "b" := Account(Free, None, None)])
  const SUBSCRIBED := State(map["a" := Account(Subscribed, None, None), "b" := Account(Free, None, None)],
                            map["sub" := Subscription("a", Active, false, None)], [], [STARTED], 0)
  const STALE := SUBSCRIBED.(subs := map["sub" := Subscription("a", Canceled, false, None)])

  lemma OneSubscribes(settings: Settings)
    ensures Next(settings, Next(settings, NOTHING, SignUp("a")), SignUp("b")) == TWO
    ensures Next(settings, TWO, Webhook(SubscriptionCreated, CREATED)) == SUBSCRIBED
  {
    var filed := FiledSubscription(TWO, "a", CREATED);
    assert filed.subs["sub"].account == "a" && filed.subs["sub"].status == Active;
    assert HasLiveSubscription(filed, "a");
    assert AccountsTouched(TWO, CREATED) == {"a"};
  }

  /** The other account is the one refreshed. */
  lemma OtherIsRefreshed(settings: Settings)
    ensures Disagrees(SUBSCRIBED, SubscriptionUpdated, ENDED)
    ensures Next(settings, SUBSCRIBED, Webhook(SubscriptionUpdated, ENDED)) == STALE
  {
    assert AccountsTouched(SUBSCRIBED, ENDED) == {"a", "b"};
    var filed := FiledSubscription(SUBSCRIBED, "b", ENDED);
    assert filed.subs == STALE.subs;
    assert !HasLiveSubscription(filed, "b");
  }

  /** Two sign-ups, a subscription of the first, and an update of it that names the second: the first keeps its
      tier without a live subscription. */
  lemma TierGoesStale(settings: Settings)
    ensures var s :=
      Run(settings, NOTHING,
          [SignUp("a"), SignUp("b"), Webhook(SubscriptionCreated, CREATED), Webhook(SubscriptionUpdated, ENDED)]);
            && "a" in s.accounts && s.accounts["a"].tier == Subscribed && !HasLiveSubscription(s, "a")
            && !TierExact(s, "a")
  {
    OneSubscribes(settings);
    OtherIsRefreshed(settings);
    var update := Webhook(SubscriptionUpdated, ENDED);
    var create := Webhook(SubscriptionCreated, CREATED);
    RunFirst(settings, NOTHING, SignUp("a"), [SignUp("b")] + ([create] + ([update] + [])));
    RunFirst(settings, Next(settings, NOTHING, SignUp("a")), SignUp("b"), [create] + ([update] + []));
    RunFirst(settings, TWO, create, [update] + []);
    RunFirst(settings, SUBSCRIBED, update, []);
    assert [SignUp("a"), SignUp("b"), create, update] == [SignUp("a")] + ([SignUp("b")] + ([create] + ([update] + [])));
  }
}
