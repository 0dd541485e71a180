// How often one Stripe reference grants credits over a whole run, erasures included: an erasure takes
// the bucket that makes a redelivery harmless.
module BillingRegrants {
  import opened Wrappers
  import opened Billing
  import opened BillingLedger
  import opened BillingGuard
  import opened BillingGrants

  ghost predicate HasRef(buckets: seq<Bucket>, ref: string) {
    exists b :: b in buckets && b.ref == Some(ref)
  }

  /** The step is a delivery that grants under this reference. */
  ghost predicate Grants(settings: Settings, s: State, step: Step, ref: string) {
    && step.Webhook? && GrantRef(step.kind, step.obj) == Some(ref)
    && HandleStripeEvent(settings, s, step.kind, step.obj).Applied?
    && IsGrant(HandleStripeEvent(settings, s, step.kind, step.obj).disposition)
  }

  /** The step erases the account whose bucket carries this reference. */
  ghost predicate Forgets(s: State, step: Step, ref: string) {
    step.Delete? && step.account in s.accounts && HasGrant(s, step.account, ref)
  }

  // ---------------------------------------------------------------- which references a handler adds

  lemma SameRefs(buckets: seq<Bucket>, to: seq<Bucket>, ref: string)
    requires |to| == |buckets| && forall i :: 0 <= i < |buckets| ==> to[i].ref == buckets[i].ref
    ensures HasRef(to, ref) <==> HasRef(buckets, ref)
  {
    if HasRef(buckets, ref) {
      var b :| b in buckets && b.ref == Some(ref);
      var i :| 0 <= i < |buckets| && buckets[i] == b;
      assert to[i] in to;
    }
    if HasRef(to, ref) {
      var b :| b in to && b.ref == Some(ref);
      var i :| 0 <= i < |to| && to[i] == b;
      assert buckets[i] in buckets;
    }
  }

  lemma GrantAddsRef(s: State, account: string, source: Source, credits: int, op: string, expiresAt: Option<int>,
                     own: Option<string>, ref: string)
    requires GrantBucket(s, account, source, credits, op, expiresAt, own).Granted?
    ensures var t := GrantBucket(s, account, source, credits, op, expiresAt, own).state;
            HasRef(t.buckets, ref) <==> HasRef(s.buckets, ref) || own == Some(ref)
    ensures own == Some(ref) ==> !HasRef(s.buckets, ref)
  {
    var t := GrantBucket(s, account, source, credits, op, expiresAt, own).state;
    var b := t.buckets[|t.buckets| - 1];
    assert t.buckets == s.buckets + [b] && b in t.buckets;
  }

  /** What a handler does to the set of references: it adds its own when it grants, and nothing otherwise. */
  ghost predicate RefsAfter(s: State, r: Result, own: Option<string>, ref: string) {
    r.Applied? ==>
      if IsGrant(r.disposition)
      then (HasRef(r.state.buckets, ref) <==> HasRef(s.buckets, ref) || own == Some(ref))
        && (own == Some(ref) ==> !HasRef(s.buckets, ref))
      else HasRef(r.state.buckets, ref) <==> HasRef(s.buckets, ref)
  }

  lemma CheckoutRefs(s: State, obj: Object, ref: string)
    ensures RefsAfter(s, OnCheckoutCompleted(s, obj), GrantRef(CheckoutCompleted, obj), ref)
  {
    var found := AccountForEvent(s, obj.metaAccount, obj.customer);
    if found.Found? && obj.isTopup && TopupCredits(obj) > 0 {
      var attached :=
        if Truthy(obj.customer) && !Truthy(s.accounts[found.account].customer)
          then AttachCustomer(s, found.account, obj.customer) else s;
      var own := OrElse(obj.paymentIntent, obj.id);
      if GrantBucket(attached, found.account, Purchased, TopupCredits(obj), "topup", None, own).Granted? {
        GrantAddsRef(attached, found.account, Purchased, TopupCredits(obj), "topup", None, own, ref);
      }
    }
  }

  lemma InvoiceRefs(settings: Settings, s: State, obj: Object, ref: string)
    ensures RefsAfter(s, OnInvoicePaid(settings, s, obj), obj.id, ref)
  {
    var reference := InvoiceSubscriptionId(obj);
    if Truthy(reference) && InvoiceAccount(s, reference.value, obj).Found?
      && !(Truthy(obj.id) && BucketAt(s.buckets, obj.id.value).Some?) {
      var key := reference.value;
      var account := InvoiceAccount(s, key, obj).account;
      var expired := ExpireBuckets(Renewed(s, key, account, obj), account, SubscriberMonthly, EXPIRE_MONTHLY);
      SameRefs(s.buckets, expired.buckets, ref);
      if GrantMonthly(settings, expired, account, AllowanceEnd(s, key, obj), obj.id).Granted? {
        GrantAddsRef(expired, account, SubscriberMonthly, settings.monthlyCredits, "grant_subscriber_monthly",
                     AllowanceEnd(s, key, obj), obj.id, ref);
      }
    }
  }

  lemma HandlerRefs(settings: Settings, s: State, kind: Kind, obj: Object, ref: string)
    ensures RefsAfter(s, Handler(settings, s, kind, obj), GrantRef(kind, obj), ref)
    ensures Handler(settings, s, kind, obj).Applied? && IsGrant(Handler(settings, s, kind, obj).disposition) ==>
      kind.InvoicePaid? || kind.CheckoutCompleted?
  {
    match kind
    case CheckoutCompleted => CheckoutRefs(s, obj, ref);
    case InvoicePaid => InvoiceRefs(settings, s, obj, ref);
    case SubscriptionDeleted =>
      if SubscriptionKey(obj) in s.subs { SameRefs(s.buckets, OnSubscriptionDeleted(s, obj).state.buckets, ref); }
    case ChargeRefunded =>
      if OnChargeRefunded(s, obj).Applied? { SameRefs(s.buckets, OnChargeRefunded(s, obj).state.buckets, ref); }
    case _ =>
  }

  // ---------------------------------------------------------------- counting over a run

  lemma OneBucketPerRef(buckets: seq<Bucket>, b: Bucket, ref: string)
    requires RefsUnique(buckets) && b in buckets && b.ref == Some(ref)
    ensures forall c :: c in buckets && c.ref == Some(ref) ==> c == b
  {
    var i :| 0 <= i < |buckets| && buckets[i] == b;
    forall c | c in buckets && c.ref == Some(ref) ensures c == b {
      var j :| 0 <= j < |buckets| && buckets[j] == c;
    }
  }

  lemma ErasureForgets(s: State, account: string, ref: string)
    requires RefsUnique(s.buckets)
    ensures HasRef(WithoutAccount(s.buckets, account), ref) <==> HasRef(s.buckets, ref) && !HasGrant(s, account, ref)
  {
    var kept := WithoutAccount(s.buckets, account);
    if HasRef(kept, ref) {
      var b :| b in kept && b.ref == Some(ref);
      WithoutAccountMembers(s.buckets, account, b);
      OneBucketPerRef(s.buckets, b, ref);
    } else if HasRef(s.buckets, ref) {
      var b :| b in s.buckets && b.ref == Some(ref);
      WithoutAccountMembers(s.buckets, account, b);
    }
  }

  /** A reference is granted only when no bucket has it, and lost only with the account that has it. */
  lemma StepRefs(settings: Settings, s: State, step: Step, ref: string)
    requires RefsUnique(s.buckets)
    ensures HasRef(Next(settings, s, step).buckets, ref) <==>
      (HasRef(s.buckets, ref) && !Forgets(s, step, ref)) || Grants(settings, s, step, ref)
    ensures Grants(settings, s, step, ref) ==> !HasRef(s.buckets, ref)
    ensures Forgets(s, step, ref) ==> HasRef(s.buckets, ref)
  {
    match step
    case SignUp(_) =>
    case Checkout(_, _) =>
    case Webhook(kind, obj) => HandlerRefs(settings, s, kind, obj, ref);
    case Delete(a, _) => ErasureForgets(s, a, ref);
  }

  ghost function TimesGranted(settings: Settings, s: State, steps: seq<Step>, ref: string): nat
    decreases |steps|
  {
    if steps == [] then 0
    else
      (if Grants(settings, s, steps[0], ref) then 1 else 0)
      + TimesGranted(settings, Next(settings, s, steps[0]), steps[1..], ref)
  }

  ghost function TimesForgotten(settings: Settings, s: State, steps: seq<Step>, ref: string): nat
    decreases |steps|
  {
    if steps == [] then 0
    else
      (if Forgets(s, steps[0], ref) then 1 else 0)
      + TimesForgotten(settings, Next(settings, s, steps[0]), steps[1..], ref)
  }

  ghost function Present(s: State, ref: string): nat {
    if HasRef(s.buckets, ref) then 1 else 0
  }

  /** Over every run the grants under a reference are the erasures that forgot it, and one more while it is on
      record: it grants at most once between two erasures of an account it credited, and never while remembered. */
  lemma {:induction false} GrantsAreForgottenOrOnRecord(settings: Settings, s: State, steps: seq<Step>, ref: string)
    requires GrantsOk(s)
    ensures TimesGranted(settings, s, steps, ref) + Present(s, ref) ==
      TimesForgotten(settings, s, steps, ref) + Present(Run(settings, s, steps), ref)
    decreases |steps|
  {
    if steps != [] {
      StepRefs(settings, s, steps[0], ref);
      StepKeepsGrants(settings, s, steps[0]);
      GrantsAreForgottenOrOnRecord(settings, Next(settings, s, steps[0]), steps[1..], ref);
    }
  }

  /** From the empty state a reference grants at most once unless an account it credited is erased. */
  lemma EachRefGrantsAtMostOnce(settings: Settings, s: State, steps: seq<Step>, ref: string)
    requires Init(s)
    ensures TimesGranted(settings, s, steps, ref) <= 1 + TimesForgotten(settings, s, steps, ref)
    ensures TimesForgotten(settings, s, steps, ref) == 0 ==> TimesGranted(settings, s, steps, ref) <= 1
  {
    GrantsAreForgottenOrOnRecord(settings, s, steps, ref);
  }

  // ---------------------------------------------------------------- redelivery after an erasure

  /** The event finds an account to credit, and something to credit it with. */
  predicate Resolves(s: State, kind: Kind, obj: Object) {
    match kind
    case CheckoutCompleted =>
      obj.isTopup && TopupCredits(obj) > 0 && AccountForEvent(s, obj.metaAccount, obj.customer).Found?
    case InvoicePaid =>
      Truthy(InvoiceSubscriptionId(obj)) && InvoiceAccount(s, InvoiceSubscriptionId(obj).value, obj).Found?
    case _ => false
  }

  lemma NoBucketNoRef(buckets: seq<Bucket>, ref: string)
    ensures BucketAt(buckets, ref) == None <==> !HasRef(buckets, ref)
  {
    if BucketAt(buckets, ref).Some? { assert buckets[BucketAt(buckets, ref).value] in buckets; }
  }

  lemma InvoiceGrantsIff(settings: Settings, s: State, obj: Object)
    requires Truthy(obj.id)
    ensures var r := OnInvoicePaid(settings, s, obj);
      && (r.Applied? && IsGrant(r.disposition) <==> !HasRef(s.buckets, obj.id.value) && Resolves(s, InvoicePaid, obj))
      && (r.Applied? && !IsGrant(r.disposition) ==> r.state.buckets == s.buckets)
      && (r.Applied? && IsGrant(r.disposition) ==> |r.state.buckets| == |s.buckets| + 1)
  {
    NoBucketNoRef(s.buckets, obj.id.value);
    if Resolves(s, InvoicePaid, obj) && !HasRef(s.buckets, obj.id.value) {
      var key := InvoiceSubscriptionId(obj).value;
      var account := InvoiceAccount(s, key, obj).account;
      var expired := ExpireBuckets(Renewed(s, key, account, obj), account, SubscriberMonthly, EXPIRE_MONTHLY);
      SameRefs(s.buckets, expired.buckets, obj.id.value);
      NoBucketNoRef(expired.buckets, obj.id.value);
    }
  }

  lemma TopupGrantsIff(s: State, obj: Object)
    requires obj.isTopup && Truthy(OrElse(obj.paymentIntent, obj.id))
    ensures var r, ref := OnCheckoutCompleted(s, obj), OrElse(obj.paymentIntent, obj.id).value;
      && (r.Applied? && IsGrant(r.disposition) <==> !HasRef(s.buckets, ref) && Resolves(s, CheckoutCompleted, obj))
      && (r.Applied? && !IsGrant(r.disposition) ==> r.state.buckets == s.buckets)
      && (r.Applied? && IsGrant(r.disposition) ==> |r.state.buckets| == |s.buckets| + 1)
  {
    NoBucketNoRef(s.buckets, OrElse(obj.paymentIntent, obj.id).value);
  }

  /** At any point of any run, delivering an event moves credits if and only if its reference is not on record, the
      guard lets it through, and it finds an account and an amount to credit. */
  lemma DeliveryGrantsIff(settings: Settings, s: State, kind: Kind, obj: Object)
    requires Truthy(GrantRef(kind, obj))
    ensures Next(settings, s, Webhook(kind, obj)).buckets != s.buckets <==>
      !HasRef(s.buckets, GrantRef(kind, obj).value) && !TouchesTombstone(s, obj) && Resolves(s, kind, obj)
  {
    if kind.InvoicePaid? { InvoiceGrantsIff(settings, s, obj); } else { TopupGrantsIff(s, obj); }
  }

  /** After the credited account is erased, the same event moves credits again if and only if the guard lets it
      through and it now finds an account and an amount to credit. */
  lemma RegrantAfterErasureIff(settings: Settings, s: State, account: string, at: int, kind: Kind, obj: Object)
    requires GrantsOk(s) && account in s.accounts
    requires Truthy(GrantRef(kind, obj)) && HasGrant(s, account, GrantRef(kind, obj).value)
    ensures var erased := DeleteAccount(s, account, at);
      Next(settings, erased, Webhook(kind, obj)).buckets != erased.buckets <==>
        !TouchesTombstone(erased, obj) && Resolves(erased, kind, obj)
  {
    ErasureForgets(s, account, GrantRef(kind, obj).value);
    DeliveryGrantsIff(settings, DeleteAccount(s, account, at), kind, obj);
  }

  // ---------------------------------------------------------------- events that name the erased account

  lemma StepKeepsErased(settings: Settings, s: State, step: Step, a: string)
    requires ForeignKeys(s) && Erased(s, a)
    ensures Erased(Next(settings, s, step), a)
  {
    if step.Delete? && step.account == a {
      DeleteErases(s, a, step.at);
    } else {
      StepLeavesErased(settings, s, step, a);
      ErasedByView(s, Next(settings, s, step), a);
    }
  }

  lemma {:induction false} RunKeepsErased(settings: Settings, s: State, steps: seq<Step>, a: string)
    requires ForeignKeys(s) && Erased(s, a)
    ensures Erased(Run(settings, s, steps), a)
    decreases |steps|
  {
    if steps != [] {
      StepKeepsErased(settings, s, steps[0], a);
      StepKeepsForeignKeys(settings, s, steps[0]);
      RunKeepsErased(settings, Next(settings, s, steps[0]), steps[1..], a);
    }
  }

  /** Every checkout the application opens names its account in the metadata. At any point after that account is
      erased, whatever has happened since, an event that names it changes nothing: it never grants again. */
  lemma NamedErasedAccountIsInert(settings: Settings, s: State, account: string, at: int, steps: seq<Step>, kind: Kind,
                                  obj: Object)
    requires ForeignKeys(s) && account in s.accounts && account != "" && obj.metaAccount == Some(account)
    ensures var later := Run(settings, DeleteAccount(s, account, at), steps);
            Next(settings, later, Webhook(kind, obj)) == later
  {
    var erased := DeleteAccount(s, account, at);
    DeleteErases(s, account, at);
    assert Next(settings, s, Delete(account, at)) == erased;
    StepKeepsForeignKeys(settings, s, Delete(account, at));
    RunKeepsErased(settings, erased, steps, account);
    assert account in AccountsTouched(Run(settings, erased, steps), obj);
  }

  // ---------------------------------------------------------------- payments the application opens

  /** Every event that could grant under this reference is of a checkout that names the account. */
  ghost predicate OpenedFor(steps: seq<Step>, account: string, ref: string) {
    forall i :: 0 <= i < |steps| && steps[i].Webhook? && GrantRef(steps[i].kind, steps[i].obj) == Some(ref) ==>
      steps[i].kind.CheckoutCompleted? && steps[i].obj.metaAccount == Some(account)
  }

  ghost predicate OnlyIn(buckets: seq<Bucket>, account: string, ref: string) {
    forall b :: b in buckets && b.ref == Some(ref) ==> b.account == account
  }

  lemma InPlaceKeepsOwner(buckets: seq<Bucket>, to: seq<Bucket>, account: string, ref: string)
    requires OnlyIn(buckets, account, ref) && |to| == |buckets|
    requires forall i :: 0 <= i < |buckets| ==> to[i].ref == buckets[i].ref && to[i].account == buckets[i].account
    ensures OnlyIn(to, account, ref)
  {
    forall b | b in to && b.ref == Some(ref) ensures b.account == account {
      var i :| 0 <= i < |to| && to[i] == b;
      assert buckets[i] in buckets;
    }
  }

  lemma InvoiceKeepsOwner(settings: Settings, s: State, obj: Object, account: string, ref: string)
    requires OnlyIn(s.buckets, account, ref) && obj.id != Some(ref) && OnInvoicePaid(settings, s, obj).Applied?
    ensures OnlyIn(OnInvoicePaid(settings, s, obj).state.buckets, account, ref)
  {
    var reference := InvoiceSubscriptionId(obj);
    if Truthy(reference) && InvoiceAccount(s, reference.value, obj).Found? {
      var key := reference.value;
      var credited := InvoiceAccount(s, key, obj).account;
      var expired := ExpireBuckets(Renewed(s, key, credited, obj), credited, SubscriberMonthly, EXPIRE_MONTHLY);
      InPlaceKeepsOwner(s.buckets, expired.buckets, account, ref);
    }
  }

  lemma HandlerKeepsOwner(settings: Settings, s: State, kind: Kind, obj: Object, account: string, ref: string)
    requires account in s.accounts && account != "" && OnlyIn(s.buckets, account, ref)
    requires OpenedFor([Webhook(kind, obj)], account, ref) && Handler(settings, s, kind, obj).Applied?
    ensures OnlyIn(Handler(settings, s, kind, obj).state.buckets, account, ref)
  {
    var only := [Webhook(kind, obj)];
    assert only[0].kind == kind && only[0].obj == obj;
    match kind
    case InvoicePaid => InvoiceKeepsOwner(settings, s, obj, account, ref);
    case SubscriptionDeleted =>
      if SubscriptionKey(obj) in s.subs {
        InPlaceKeepsOwner(s.buckets, OnSubscriptionDeleted(s, obj).state.buckets, account, ref);
      }
    case ChargeRefunded => InPlaceKeepsOwner(s.buckets, OnChargeRefunded(s, obj).state.buckets, account, ref);
    case _ =>
  }

  lemma StepKeepsOwner(settings: Settings, s: State, step: Step, account: string, ref: string)
    requires account in s.accounts && account != "" && OnlyIn(s.buckets, account, ref)
    requires OpenedFor([step], account, ref)
    ensures OnlyIn(Next(settings, s, step).buckets, account, ref)
  {
    if step.Webhook? && HandleStripeEvent(settings, s, step.kind, step.obj).Applied? {
      if !TouchesTombstone(s, step.obj) { HandlerKeepsOwner(settings, s, step.kind, step.obj, account, ref); }
    } else if step.Delete? {
      forall b | b in WithoutAccount(s.buckets, step.account) ensures b in s.buckets {
        WithoutAccountMembers(s.buckets, step.account, b);
      }
    }
  }

  /** Once its account is erased, a payment opened for it is never credited. */
  lemma {:induction false} ErasedIsNeverCredited(settings: Settings, s: State, steps: seq<Step>, account: string,
                                                 ref: string)
    requires ForeignKeys(s) && Erased(s, account) && account != "" && OpenedFor(steps, account, ref)
    ensures TimesGranted(settings, s, steps, ref) == 0
    decreases |steps|
  {
    if steps != [] {
      StepKeepsErased(settings, s, steps[0], account);
      StepKeepsForeignKeys(settings, s, steps[0]);
      ErasedIsNeverCredited(settings, Next(settings, s, steps[0]), steps[1..], account, ref);
    }
  }

  /** Until its account is erased, a payment is on record exactly once it is credited. */
  lemma CreditedIsOnRecord(settings: Settings, s: State, step: Step, account: string, ref: string)
    requires GrantsOk(s) && account in s.accounts && account != "" && OnlyIn(s.buckets, account, ref)
    requires OpenedFor([step], account, ref) && !(step.Delete? && step.account == account)
    ensures var next := Next(settings, s, step);
      && GrantsOk(next) && account in next.accounts && OnlyIn(next.buckets, account, ref)
      && Present(next, ref) == Present(s, ref) + if Grants(settings, s, step, ref) then 1 else 0
  {
    StepRefs(settings, s, step, ref);
    StepKeepsGrants(settings, s, step);
    StepKeepsOwner(settings, s, step, account, ref);
    StepKeepsAccount(settings, s, step, account);
  }

  lemma HandlerKeepsAccount(settings: Settings, s: State, kind: Kind, obj: Object, account: string)
    requires account in s.accounts && Handler(settings, s, kind, obj).Applied?
    ensures account in Handler(settings, s, kind, obj).state.accounts
  {
    match kind
    case CheckoutCompleted =>
    case InvoicePaid =>
    case SubscriptionDeleted =>
    case InvoicePaymentFailed =>
    case ChargeRefunded =>
    case _ =>
  }

  lemma StepKeepsAccount(settings: Settings, s: State, step: Step, account: string)
    requires account in s.accounts
    ensures account in Next(settings, s, step).accounts
  {
    if step.Webhook? && HandleStripeEvent(settings, s, step.kind, step.obj).Applied? {
      if !TouchesTombstone(s, step.obj) { HandlerKeepsAccount(settings, s, step.kind, step.obj, account); }
    }
  }

  lemma ErasedNow(settings: Settings, s: State, account: string, at: int, ref: string)
    requires ForeignKeys(s) && account in s.accounts
    ensures Erased(Next(settings, s, Delete(account, at)), account) && !Grants(settings, s, Delete(account, at), ref)
  {
    DeleteErases(s, account, at);
  }

  /** A payment the application opens for an account is credited at most once in every run, whatever else happens:
      erasures, redeliveries, other events about the same payment. */
  lemma {:induction false} OpenedPaymentGrantsOnce(settings: Settings, s: State, steps: seq<Step>, account: string,
                                                   ref: string)
    requires GrantsOk(s) && ForeignKeys(s) && account in s.accounts && account != ""
    requires OnlyIn(s.buckets, account, ref) && OpenedFor(steps, account, ref)
    ensures TimesGranted(settings, s, steps, ref) + Present(s, ref) <= 1
    decreases |steps|
  {
    if steps != [] {
      var next := Next(settings, s, steps[0]);
      StepKeepsForeignKeys(settings, s, steps[0]);
      if steps[0].Delete? && steps[0].account == account {
        ErasedNow(settings, s, account, steps[0].at, ref);
        ErasedIsNeverCredited(settings, next, steps[1..], account, ref);
      } else {
        CreditedIsOnRecord(settings, s, steps[0], account, ref);
        OpenedPaymentGrantsOnce(settings, next, steps[1..], account, ref);
      }
    }
  }

  // ---------------------------------------------------------------- a reference that grants twice

  /** A payment that was not opened by the application: its session names no account. */
  const TOPUP := BARE.(customer := Some("c"), isTopup := true, metaCredits := 5, paymentIntent := Some("pi"))
  const PAID := Webhook(CheckoutCompleted, TOPUP)

  /** A finished checkout of customer "c" that names the account. */
  function Attach(account: string): Step {
    Webhook(CheckoutCompleted, BARE.(customer := Some("c"), metaAccount := Some(account)))
  }

  const WITH_CUSTOMER := NOTHING.(accounts := map["A" := Account(Free, Some("c"), None)])
  const CREDITED := WITH_CUSTOMER.(buckets := [Bucket(0, "A", Purchased, 5, 5, None, Some("pi"))],
                                   ledger := [Entry("A", "topup", 5, Some(0))], nextBucket := 1)
  const ERASED := State(map["A" := Account(Free, None, Some(1))], map[], [], [Entry("A", "topup", 5, None)], 1)
  const SIGNED := ERASED.(accounts := map["A" := Account(Free, None, Some(1)), "B" := Account(Free, None, None)])
  const MOVED := ERASED.(accounts := map["A" := Account(Free, None, Some(1)), "B" := Account(Free, Some("c"), None)])

  lemma FirstAttached(settings: Settings)
    ensures Next(settings, Next(settings, NOTHING, SignUp("A")), Attach("A")) == WITH_CUSTOMER
  {
    var signed := NOTHING.(accounts := map["A" := Account(Free, None, None)]);
    assert Next(settings, NOTHING, SignUp("A")) == signed;
    assert AccountsTouched(signed, Attach("A").obj) == {"A"};
  }

  lemma CustomerIsA()
    ensures CustomerAccounts(WITH_CUSTOMER, "c") == {"A"}
    ensures AccountForEvent(WITH_CUSTOMER, None, Some("c")) == Found("A")
  {
    var owners := CustomerAccounts(WITH_CUSTOMER, "c");
    assert owners == {"A"};
    assert |owners| == 1;
    assert forall a :: a in owners ==> a == "A";
  }

  lemma NobodyErasedYet()
    ensures !TouchesTombstone(WITH_CUSTOMER, TOPUP)
  {
    CustomerIsA();
    assert AccountsTouched(WITH_CUSTOMER, TOPUP) == {"A"};
  }

  lemma FirstPaid(settings: Settings)
    ensures Next(settings, WITH_CUSTOMER, PAID) == CREDITED && Grants(settings, WITH_CUSTOMER, PAID, "pi")
  {
    CustomerIsA();
    NobodyErasedYet();
    assert OnCheckoutCompleted(WITH_CUSTOMER, TOPUP) == Applied(CREDITED, "topup-granted");
  }

  lemma AccountGone(settings: Settings)
    ensures Next(settings, CREDITED, Delete("A", 1)) == ERASED
  {
    var buckets := CREDITED.buckets;
    assert buckets[0] in buckets && buckets[..0] == [];
    assert 0 in BucketIdsOf(buckets, "A");
    assert WithoutAccount(buckets, "A") == [];
    assert ClearReferences(CREDITED.ledger, BucketIdsOf(buckets, "A")) == [Entry("A", "topup", 5, None)];
  }

  lemma OtherAttached(settings: Settings)
    ensures Next(settings, ERASED, SignUp("B")) == SIGNED
    ensures Next(settings, SIGNED, Attach("B")) == MOVED
  {
    assert CustomerAccounts(SIGNED, "c") == {};
    assert AccountsTouched(SIGNED, Attach("B").obj) == {"B"};
  }

  lemma CustomerIsNowB()
    ensures CustomerAccounts(MOVED, "c") == {"B"} && AccountForEvent(MOVED, None, Some("c")) == Found("B")
  {
    var owners := CustomerAccounts(MOVED, "c");
    assert owners == {"B"};
    assert |owners| == 1;
    assert forall a :: a in owners ==> a == "B";
  }

  lemma NoTombstoneTouched()
    ensures !TouchesTombstone(MOVED, TOPUP)
  {
    CustomerIsNowB();
    assert AccountsTouched(MOVED, TOPUP) == {"B"};
  }

  lemma OtherPaid(settings: Settings)
    ensures Grants(settings, MOVED, PAID, "pi")
  {
    CustomerIsNowB();
    NoTombstoneTouched();
    assert OnCheckoutCompleted(MOVED, TOPUP).disposition == "topup-granted";
  }

  lemma GrantedFirst(settings: Settings, s: State, step: Step, rest: seq<Step>, ref: string)
    ensures TimesGranted(settings, s, [step] + rest, ref) ==
      (if Grants(settings, s, step, ref) then 1 else 0) + TimesGranted(settings, Next(settings, s, step), rest, ref)
  {
    assert ([step] + rest)[0] == step && ([step] + rest)[1..] == rest;
  }

  const TWICE := [SignUp("A"), Attach("A"), PAID, Delete("A", 1), SignUp("B"), Attach("B"), PAID]

  lemma GrantedAfterErasure(settings: Settings)
    ensures TimesGranted(settings, ERASED, [SignUp("B")] + ([Attach("B")] + ([PAID] + [])), "pi") == 1
  {
    OtherAttached(settings);
    OtherPaid(settings);
    GrantedFirst(settings, ERASED, SignUp("B"), [Attach("B")] + ([PAID] + []), "pi");
    GrantedFirst(settings, SIGNED, Attach("B"), [PAID] + [], "pi");
    GrantedFirst(settings, MOVED, PAID, [], "pi");
  }

  /** A payment of customer "c" credits account "A"; "A" is erased; a checkout of "c" names "B"; a second event about
      the same payment credits "B". */
  lemma RefGrantsTwice(settings: Settings)
    ensures TimesGranted(settings, NOTHING, TWICE, "pi") == 2
  {
    FirstAttached(settings);
    FirstPaid(settings);
    AccountGone(settings);
    GrantedAfterErasure(settings);
    var after := [SignUp("B")] + ([Attach("B")] + ([PAID] + []));
    var signed := Next(settings, NOTHING, SignUp("A"));
    GrantedFirst(settings, NOTHING, SignUp("A"), [Attach("A")] + ([PAID] + ([Delete("A", 1)] + after)), "pi");
    GrantedFirst(settings, signed, Attach("A"), [PAID] + ([Delete("A", 1)] + after), "pi");
    GrantedFirst(settings, WITH_CUSTOMER, PAID, [Delete("A", 1)] + after, "pi");
    GrantedFirst(settings, CREDITED, Delete("A", 1), after, "pi");
    assert TWICE == [SignUp("A")] + ([Attach("A")] + ([PAID] + ([Delete("A", 1)] + after)));
  }
}
