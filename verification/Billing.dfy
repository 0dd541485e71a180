// The billing tables and the Stripe webhook state machine as functions on their state.
module Billing {
  import opened Wrappers

  datatype Tier = Free | Subscribed
  datatype Account = Account(tier: Tier, customer: Option<string>, deletedAt: Option<int>)

  datatype SubscriptionStatus = Active | PastDue | Canceled
  datatype Subscription = Subscription(account: string, status: SubscriptionStatus, cancelAtPeriodEnd: bool,
                                       periodEnd: Option<int>)

  datatype Source = SubscriberMonthly | Purchased | FreeSignupBonus | Promotional
  datatype Bucket = Bucket(id: nat, account: string, source: Source, granted: int, remaining: int,
                           expiresAt: Option<int>, ref: Option<string>)
  datatype Entry = Entry(account: string, op: string, delta: int, bucket: Option<nat>)

  /** Subscriptions are keyed by Stripe id; buckets and ledger are in insertion order. */
  datatype State = State(
    accounts: map<string, Account>,
    subs: map<string, Subscription>,
    buckets: seq<Bucket>,
    ledger: seq<Entry>,
    nextBucket: nat)

  datatype Settings = Settings(monthlyCredits: nat)

  // ---------------------------------------------------------------- the event object

  /** A reference Stripe sends as an id or as an expanded object. */
  datatype Reference = Absent | Id(id: string) | Expanded(objectId: Option<string>)

  /** The fields the handlers read; `metaCredits` is 0 when missing or not a number. */
  datatype Object = Object(
    id: Option<string>,
    customer: Option<string>,
    metaAccount: Option<string>,
    isTopup: bool,
    metaCredits: int,
    amountTotal: Option<int>,
    paymentIntent: Option<string>,
    status: string,
    cancelAtPeriodEnd: bool,
    periodEnd: Option<int>,
    subscription: Reference,
    parentSubscription: Reference,
    billingReason: string,
    linePeriodEnd: Option<int>,
    amountRefunded: int)

  datatype Kind =
    | CheckoutCompleted | SubscriptionCreated | SubscriptionUpdated | SubscriptionDeleted
    | InvoicePaid | InvoicePaymentFailed | ChargeRefunded
    | Unhandled

  /** `Raised` is an exception before the commit: the transaction is rolled back. */
  datatype Result = Applied(state: State, disposition: string) | Raised

  /** Python's `a or b`. */
  function OrElse(a: Option<string>, b: Option<string>): Option<string> {
    if Truthy(a) then a else b
  }

  /** The status map; anything unlisted counts as canceled. */
  function StatusOf(status: string): SubscriptionStatus {
    if status == "active" || status == "trialing" then Active
    else if status == "past_due" then PastDue
    else Canceled
  }

  function InvoiceSubscriptionId(obj: Object): Option<string> {
    match obj.subscription
    case Id(s) => if s != "" then Some(s) else ParentSubscriptionId(obj)
    case Expanded(inner) => inner
    case Absent => ParentSubscriptionId(obj)
  }

  function ParentSubscriptionId(obj: Object): Option<string> {
    match obj.parentSubscription
    case Id(s) => if s != "" then Some(s) else None
    case Expanded(inner) => inner
    case Absent => None
  }

  // ---------------------------------------------------------------- lookups

  datatype Lookup = Found(account: string) | Missing | Ambiguous

  function CustomerAccounts(s: State, customer: string): set<string> {
    set a | a in s.accounts && s.accounts[a].customer == Some(customer)
  }

  lemma SoleElement(xs: set<string>)
    requires |xs| == 1
    ensures forall x, y :: x in xs && y in xs ==> x == y
  {
    var x :| x in xs;
    assert |xs - {x}| == 0;
    assert xs == {x} + (xs - {x});
  }

  /** `_account_for_event`: the metadata id wins; `stripe_customer_id` is not unique, and two hits raise. */
  function AccountForEvent(s: State, metaAccount: Option<string>, customer: Option<string>): (found: Lookup)
    ensures found.Found? ==> found.account in s.accounts
  {
    if Truthy(metaAccount) && metaAccount.value in s.accounts then Found(metaAccount.value)
    else if !Truthy(customer) then Missing
    else
      var owners := CustomerAccounts(s, customer.value);
      if |owners| == 0 then Missing
      else if |owners| > 1 then Ambiguous
      else
        SoleElement(owners);
        var a :| a in owners;
        Found(a)
  }

  /** The position of the bucket carrying a Stripe ref. */
  function BucketAt(buckets: seq<Bucket>, ref: string): (at: Option<nat>)
    ensures at.Some? ==> at.value < |buckets| && buckets[at.value].ref == Some(ref)
    ensures at == None ==> forall b :: b in buckets ==> b.ref != Some(ref)
  {
    if buckets == [] then None
    else if buckets[|buckets| - 1].ref == Some(ref) then Some(|buckets| - 1)
    else
      assert buckets == buckets[..|buckets| - 1] + [buckets[|buckets| - 1]];
      BucketAt(buckets[..|buckets| - 1], ref)
  }

  // ---------------------------------------------------------------- ledger operations

  function Audit(s: State, account: string, op: string): State {
    s.(ledger := s.ledger + [Entry(account, op, 0, None)])
  }

  datatype Grant = Granted(state: State) | Duplicate | UniqueViolation

  /** `grant_bucket`: idempotent on a non-empty ref; an empty one is checked only by the UNIQUE column. */
  function GrantBucket(s: State, account: string, source: Source, credits: int, op: string, expiresAt: Option<int>,
                       ref: Option<string>): Grant {
    if Truthy(ref) && BucketAt(s.buckets, ref.value).Some? then Duplicate
    else if ref.Some? && BucketAt(s.buckets, ref.value).Some? then UniqueViolation
    else
      Granted(s.(
        buckets := s.buckets + [Bucket(s.nextBucket, account, source, credits, credits, expiresAt, ref)],
        ledger := s.ledger + [Entry(account, op, credits, Some(s.nextBucket))],
        nextBucket := s.nextBucket + 1))
  }

  predicate IsLive(b: Bucket, account: string, source: Source) {
    b.account == account && b.source == source && b.remaining > 0
  }

  function Drained(buckets: seq<Bucket>, account: string, source: Source): (drained: seq<Bucket>)
    ensures |drained| == |buckets|
    ensures forall i :: 0 <= i < |buckets| ==>
              drained[i] == if IsLive(buckets[i], account, source) then buckets[i].(remaining := 0) else buckets[i]
  {
    if buckets == [] then []
    else
      var b := buckets[|buckets| - 1];
      Drained(buckets[..|buckets| - 1], account, source)
        + [if IsLive(b, account, source) then b.(remaining := 0) else b]
  }

  function DrainEntries(buckets: seq<Bucket>, account: string, source: Source, op: string): seq<Entry> {
    if buckets == [] then []
    else
      var b := buckets[|buckets| - 1];
      var earlier := DrainEntries(buckets[..|buckets| - 1], account, source, op);
      if IsLive(b, account, source) then earlier + [Entry(account, op, -b.remaining, Some(b.id))] else earlier
  }

  /** `expire_buckets`: every live bucket of the source drops to zero, each with its own ledger row. */
  function ExpireBuckets(s: State, account: string, source: Source, op: string): State {
    s.(buckets := Drained(s.buckets, account, source),
       ledger := s.ledger + DrainEntries(s.buckets, account, source, op))
  }

  // ---------------------------------------------------------------- tier

  predicate HasLiveSubscription(s: State, account: string) {
    exists ref :: ref in s.subs && s.subs[ref].account == account && s.subs[ref].status != Canceled
  }

  /** `_refresh_tier` */
  function RefreshTier(s: State, account: string): State
    requires account in s.accounts
  {
    s.(accounts :=
       s.accounts[account :=
                  s.accounts[account].(tier := if HasLiveSubscription(s, account) then Subscribed else Free)])
  }

  function AttachCustomer(s: State, account: string, customer: Option<string>): State
    requires account in s.accounts
  {
    s.(accounts := s.accounts[account := s.accounts[account].(customer := customer)])
  }

  // ---------------------------------------------------------------- handlers

  const EXPIRE_MONTHLY := "expire_subscriber_monthly"

  function TopupCredits(obj: Object): int {
    if obj.metaCredits <= 0 && obj.amountTotal.Some? then obj.amountTotal.value else obj.metaCredits
  }

  function OnCheckoutCompleted(s: State, obj: Object): Result {
    match AccountForEvent(s, obj.metaAccount, obj.customer)
    case Ambiguous => Raised
    case Missing => Applied(s, "no-account")
    case Found(account) =>
      var attached :=
        if Truthy(obj.customer) && !Truthy(s.accounts[account].customer) then AttachCustomer(s, account, obj.customer)
          else s;
      if !obj.isTopup then Applied(attached, "customer-attached")
      else
        var credits := TopupCredits(obj);
        if credits <= 0 then Applied(attached, "topup-no-credits")
        else
          match GrantBucket(attached, account, Purchased, credits, "topup", None, OrElse(obj.paymentIntent, obj.id))
          case Granted(granted) => Applied(granted, "topup-granted")
          case Duplicate => Applied(attached, "topup-duplicate")
          case UniqueViolation => Raised
  }

  /** The Stripe id a subscription event is filed under: a missing id is the empty string. */
  function SubscriptionKey(obj: Object): string {
    obj.id.GetOr("")
  }

  function UpsertedRow(s: State, account: string, obj: Object): Subscription {
    var key := SubscriptionKey(obj);
    var existing := if key in s.subs then s.subs[key] else Subscription(account, Active, false, None);
    existing.(status := StatusOf(obj.status),
          cancelAtPeriodEnd := obj.cancelAtPeriodEnd,
          periodEnd := if obj.periodEnd.Some? then obj.periodEnd else existing.periodEnd)
  }

  /** The row stored, with its audit rows: started when it is new, cancel-pending when that has just been set. */
  function FiledSubscription(s: State, account: string, obj: Object): State {
    var key := SubscriptionKey(obj);
    var created := key !in s.subs;
    var started := if created then Audit(s, account, "subscription_started") else s;
    var row := UpsertedRow(s, account, obj);
    var stored := started.(subs := started.subs[key := row]);
    if row.cancelAtPeriodEnd && !created && !s.subs[key].cancelAtPeriodEnd
    then Audit(stored, account, "subscription_canceled_at_period_end") else stored
  }

  function OnSubscriptionUpserted(s: State, obj: Object): Result {
    match AccountForEvent(s, obj.metaAccount, obj.customer)
    case Ambiguous => Raised
    case Missing => Applied(s, "no-account")
    case Found(account) =>
      var filed := FiledSubscription(s, account, obj);
      var attached :=
        if s.accounts[account].customer == None && Truthy(obj.customer)
          then AttachCustomer(filed, account, obj.customer) else filed;
      Applied(RefreshTier(attached, account),
              if SubscriptionKey(obj) !in s.subs then "subscription-created" else "subscription-updated")
  }

  function SetStatus(s: State, key: string, status: SubscriptionStatus): State
    requires key in s.subs
  {
    s.(subs := s.subs[key := s.subs[key].(status := status)])
  }

  function OnSubscriptionDeleted(s: State, obj: Object): Result {
    var key := SubscriptionKey(obj);
    if key !in s.subs then Applied(s, "no-subscription")
    else
      var row := s.subs[key];
      var canceled := SetStatus(s, key, Canceled);
      if row.account !in s.accounts then Applied(canceled, "no-account")
      else
        var noted :=
          Audit(canceled, row.account, if row.cancelAtPeriodEnd then "subscription_ended"
                else "subscription_canceled_immediate");
        var expired := ExpireBuckets(noted, row.account, SubscriberMonthly, EXPIRE_MONTHLY);
        Applied(RefreshTier(expired, row.account), "subscription-canceled")
  }

  /** The account an invoice pays for: the subscription row's, else the customer's. */
  function InvoiceAccount(s: State, key: string, obj: Object): Lookup {
    if key in s.subs then (if s.subs[key].account in s.accounts then Found(s.subs[key].account) else Missing)
    else AccountForEvent(s, None, obj.customer)
  }

  function Recovered(s: State, key: string, account: string): State
    requires account in s.accounts
  {
    if key in s.subs && s.subs[key].status == PastDue then RefreshTier(SetStatus(s, key, Active), account) else s
  }

  function Renewed(s: State, key: string, account: string, obj: Object): State
    requires account in s.accounts
  {
    var recovered := Recovered(s, key, account);
    if obj.billingReason == "subscription_cycle" then Audit(recovered, account, "subscription_renewed") else recovered
  }

  function AllowanceEnd(s: State, key: string, obj: Object): Option<int> {
    if obj.linePeriodEnd.Some? then obj.linePeriodEnd
    else if key in s.subs then s.subs[key].periodEnd
    else None
  }

  function GrantMonthly(settings: Settings, s: State, account: string, periodEnd: Option<int>,
                        ref: Option<string>): Grant {
    GrantBucket(s, account, SubscriberMonthly, settings.monthlyCredits, "grant_subscriber_monthly", periodEnd, ref)
  }

  function OnInvoicePaid(settings: Settings, s: State, obj: Object): Result {
    var reference := InvoiceSubscriptionId(obj);
    if !Truthy(reference) then Applied(s, "ignored")
    else
      var key := reference.value;
      match InvoiceAccount(s, key, obj)
      case Ambiguous => Raised
      case Missing => Applied(s, "no-account")
      case Found(account) =>
        if Truthy(obj.id) && BucketAt(s.buckets, obj.id.value).Some? then Applied(s, "grant-duplicate")
        else
          var expired := ExpireBuckets(Renewed(s, key, account, obj), account, SubscriberMonthly, EXPIRE_MONTHLY);
          match GrantMonthly(settings, expired, account, AllowanceEnd(s, key, obj), obj.id)
          case Granted(granted) => Applied(granted, "grant-issued")
          case Duplicate => Applied(expired, "grant-duplicate")
          case UniqueViolation => Raised
  }

  function OnInvoicePaymentFailed(s: State, obj: Object): Result {
    var reference := InvoiceSubscriptionId(obj);
    if !Truthy(reference) then Applied(s, "ignored")
    else
      var key := reference.value;
      if key !in s.subs then Applied(s, "no-subscription")
      else
        var row := s.subs[key];
        var lapsed := if row.status == Active then SetStatus(s, key, PastDue) else s;
        Applied(if row.account in s.accounts then Audit(lapsed, row.account, "subscription_payment_failed")
                else lapsed, "past-due")
  }

  function Min(a: int, b: int): int {
    if a < b then a else b
  }

  /** The clawback is bounded by what is left; a non-positive one leaves the bucket but is still written to the
      ledger. */
  function Refunded(s: State, at: nat, amount: int): State
    requires at < |s.buckets|
  {
    var b := s.buckets[at];
    var clawback := Min(amount, b.remaining);
    s.(buckets := if clawback > 0 then s.buckets[at := b.(remaining := b.remaining - clawback)] else s.buckets,
       ledger := s.ledger + [Entry(b.account, "refund_purchased", -clawback, Some(b.id))])
  }

  function OnChargeRefunded(s: State, obj: Object): Result {
    if !Truthy(obj.paymentIntent) then Applied(s, "ignored")
    else
      match BucketAt(s.buckets, obj.paymentIntent.value)
      case None => Applied(s, "no-bucket")
      case Some(at) => Applied(Refunded(s, at, obj.amountRefunded), "refund-applied")
  }

  function Handler(settings: Settings, s: State, kind: Kind, obj: Object): Result {
    match kind
    case CheckoutCompleted => OnCheckoutCompleted(s, obj)
    case SubscriptionCreated => OnSubscriptionUpserted(s, obj)
    case SubscriptionUpdated => OnSubscriptionUpserted(s, obj)
    case SubscriptionDeleted => OnSubscriptionDeleted(s, obj)
    case InvoicePaid => OnInvoicePaid(settings, s, obj)
    case InvoicePaymentFailed => OnInvoicePaymentFailed(s, obj)
    case ChargeRefunded => OnChargeRefunded(s, obj)
    case Unhandled => Applied(s, "ignored")
  }

  // ---------------------------------------------------------------- the tombstone guard

  function BucketOwners(buckets: seq<Bucket>, ref: Option<string>): set<string> {
    if Truthy(ref) then set b | b in buckets && b.ref == ref :: b.account else {}
  }

  function SubscriptionOwners(s: State, ref: Option<string>): set<string> {
    if Truthy(ref) && ref.value in s.subs then {s.subs[ref.value].account} else {}
  }

  /** `_accounts_touched`: every account reachable by any id the object carries. Empty ids are filtered out. */
  function AccountsTouched(s: State, obj: Object): set<string> {
    var byMeta := if Truthy(obj.metaAccount) then {obj.metaAccount.value} else {};
    var byCustomer := if Truthy(obj.customer) then CustomerAccounts(s, obj.customer.value) else {};
    var bySubscription := SubscriptionOwners(s, obj.id) + SubscriptionOwners(s, InvoiceSubscriptionId(obj));
    var byBucket := BucketOwners(s.buckets, obj.paymentIntent) + BucketOwners(s.buckets, obj.id);
    set a | a in byMeta + byCustomer + bySubscription + byBucket && a in s.accounts
  }

  predicate TouchesTombstone(s: State, obj: Object) {
    exists a :: a in AccountsTouched(s, obj) && s.accounts[a].deletedAt.Some?
  }

  const DISPOSITION_ACCOUNT_DELETED := "account-deleted"

  function HandleStripeEvent(settings: Settings, s: State, kind: Kind, obj: Object): Result {
    if kind.Unhandled? then Applied(s, "ignored")
    else if TouchesTombstone(s, obj) then Applied(s, DISPOSITION_ACCOUNT_DELETED)
    else Handler(settings, s, kind, obj)
  }

  // ---------------------------------------------------------------- erasure

  function BucketIdsOf(buckets: seq<Bucket>, account: string): set<nat> {
    set b | b in buckets && b.account == account :: b.id
  }

  function ClearReferences(ledger: seq<Entry>, ids: set<nat>): (cleared: seq<Entry>)
    ensures |cleared| == |ledger|
    ensures forall i :: 0 <= i < |ledger| ==>
              cleared[i] == if ledger[i].bucket.Some? && ledger[i].bucket.value in ids then ledger[i].(bucket := None)
                else ledger[i]
  {
    if ledger == [] then []
    else
      var e := ledger[|ledger| - 1];
      ClearReferences(ledger[..|ledger| - 1], ids) +
      [if e.bucket.Some? && e.bucket.value in ids then e.(bucket := None) else e]
  }

  function WithoutAccount(buckets: seq<Bucket>, account: string): seq<Bucket> {
    if buckets == [] then []
    else
      var b := buckets[|buckets| - 1];
      var earlier := WithoutAccount(buckets[..|buckets| - 1], account);
      if b.account == account then earlier else earlier + [b]
  }

  /** The billing half of `delete_account`: ledger retained, wallet and subscriptions gone, a tombstone left. */
  function DeleteAccount(s: State, account: string, at: int): State
    requires account in s.accounts
  {
    s.(ledger := ClearReferences(s.ledger, BucketIdsOf(s.buckets, account)),
       buckets := WithoutAccount(s.buckets, account),
       subs := map ref | ref in s.subs && s.subs[ref].account != account :: s.subs[ref],
       accounts := s.accounts[account := Account(Free, None, Some(at))])
  }

  // ---------------------------------------------------------------- runs

  /** `Checkout` is the API attaching a customer it has just created; `SignUp` a new account id. */
  datatype Step =
    | SignUp(account: string)
    | Checkout(account: string, customer: string)
    | Webhook(kind: Kind, obj: Object)
    | Delete(account: string, at: int)

  function Next(settings: Settings, s: State, step: Step): State {
    match step
    case SignUp(a) => if a in s.accounts then s else s.(accounts := s.accounts[a := Account(Free, None, None)])
    case Checkout(a, customer) =>
      if a in s.accounts && s.accounts[a].deletedAt == None && !Truthy(s.accounts[a].customer)
        then AttachCustomer(s, a, Some(customer)) else s
    case Webhook(kind, obj) =>
      (match HandleStripeEvent(settings, s, kind, obj)
       case Applied(applied, _) => applied
       case Raised => s)
    case Delete(a, at) => if a in s.accounts then DeleteAccount(s, a, at) else s
  }

  function Run(settings: Settings, s: State, steps: seq<Step>): State
    decreases |steps|
  {
    if steps == [] then s else Run(settings, Next(settings, s, steps[0]), steps[1..])
  }

  ghost predicate Init(s: State) {
    s.accounts == map[] && s.subs == map[] && s.buckets == [] && s.ledger == []
  }

  const NOTHING := State(map[], map[], [], [], 0)

  /** An object that carries nothing a handler reads. */
  const BARE := Object(None, None, None, false, 0, None, None, "", false, None, Absent, Absent, "", None, 0)

  lemma RunFirst(settings: Settings, s: State, step: Step, rest: seq<Step>)
    ensures Run(settings, s, [step] + rest) == Run(settings, Next(settings, s, step), rest)
  {
    assert ([step] + rest)[1..] == rest;
  }
}
