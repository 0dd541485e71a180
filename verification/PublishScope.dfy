// Publish-scope consent: what a repo's consent permits, the gate each publish passes, and the purge
// of stored copies when a consent is narrowed.
module PublishScope {
  import opened Wrappers
  import Text

  const LANES: set<string> :=
    {"runners", "live_runs", "activity", "corpus", "quota", "pr_review_queue", "run_ledger", "news"}
  const SLICES: set<string> := {"authored", "knowledge", "runs"}
  const OFF := "none"
  const CORPUS := "corpus"

  // ---------------------------------------------------------------- consent

  /** A stored `publish_layers`: NULL, the empty string, or its split, folded tokens. */
  datatype Consent = Unrecorded | Blank | Tokens(tokens: set<string>)

  datatype Scopes = Scopes(lanes: set<string>, slices: set<string>)

  const NOTHING := Scopes({}, {})

  /** `_resolve_publish_scopes` on a token set. */
  function ResolveTokens(tokens: set<string>): Scopes {
    if OFF in tokens then NOTHING
    else
      var slices := if CORPUS in tokens then SLICES else tokens * SLICES;
      var lanes := tokens * LANES;
      Scopes(if slices != {} then lanes + {CORPUS} else lanes - {CORPUS}, slices)
  }

  /** `_repo_scopes`: an unrecorded consent permits nothing. */
  function RepoScopes(consent: Consent): Scopes {
    match consent
    case Unrecorded => ResolveTokens({OFF})
    case Blank => Scopes(LANES, SLICES)
    case Tokens(tokens) => ResolveTokens(tokens)
  }

  /** The corpus lane is open exactly when some corpus slice is. */
  lemma CorpusLaneIffSlices(consent: Consent)
    ensures CORPUS in RepoScopes(consent).lanes <==> RepoScopes(consent).slices != {}
  {
    assert "authored" in SLICES;
  }

  // ---------------------------------------------------------------- labels

  /** `str.casefold` is left open. */
  type Fold = string -> string

  datatype Repo = Repo(id: string, account: string, name: string, consent: Consent)

  // ---------------------------------------------------------------- the gate

  predicate LanePermitted(repos: map<string, Repo>, repo: Option<string>, lane: string) {
    repo.Some? && repo.value in repos ==> lane in RepoScopes(repos[repo.value].consent).lanes
  }

  /** The gate's reading of a label: stripped, then folded; a blank one names nobody. */
  predicate Names(fold: Fold, subject: Option<string>, repo: Repo) {
    subject.Some? && Text.Strip(subject.value) != "" && fold(Text.Strip(subject.value)) == fold(repo.name)
  }

  predicate IsSubject(fold: Fold, repos: map<string, Repo>, account: string, subject: Option<string>, id: string) {
    id in repos && repos[id].account == account && Names(fold, subject, repos[id])
  }

  /** `_subject_permits`: every repo the label could name must permit; with none, the publisher's consent
      decides. */
  ghost predicate SubjectPermits(fold: Fold, repos: map<string, Repo>, account: string, subject: Option<string>,
                                 publisher: Option<string>, lane: string) {
    if exists id :: IsSubject(fold, repos, account, subject, id)
    then forall id :: IsSubject(fold, repos, account, subject, id) ==> lane in RepoScopes(repos[id].consent).lanes
    else LanePermitted(repos, publisher, lane)
  }

  /** Enforcement does not weaken when a repo is added: a row the gate refused is still refused, unless
      the newcomer is the first repo its label names. */
  lemma AddingARepoNeverWidens(fold: Fold, repos: map<string, Repo>, newcomer: Repo, account: string,
                               subject: Option<string>, publisher: Option<string>, lane: string)
    requires newcomer.id !in repos && publisher != Some(newcomer.id)
    requires SubjectPermits(fold, repos[newcomer.id := newcomer], account, subject, publisher, lane)
    requires !IsSubject(fold, repos[newcomer.id := newcomer], account, subject, newcomer.id)
          || exists id :: IsSubject(fold, repos, account, subject, id)
    ensures SubjectPermits(fold, repos, account, subject, publisher, lane)
  {
    var more := repos[newcomer.id := newcomer];
    assert forall id ::
      id != newcomer.id ==>
        (IsSubject(fold, more, account, subject, id) <==> IsSubject(fold, repos, account, subject, id));
    if exists id :: IsSubject(fold, repos, account, subject, id) {
      var id :| IsSubject(fold, repos, account, subject, id);
      assert IsSubject(fold, more, account, subject, id);
    }
  }

  // ---------------------------------------------------------------- stored copies

  /** The `layer` of a stored element: missing or a plain value that names nothing, a string, or, after rot, an
      array or object, which Python cannot look up in a set. */
  datatype Layer = NoLayer | Named(name: string) | Nested

  /** One element of a stored JSON list; `subject` is its `repo_label` when that is a string. */
  datatype Item = Item(subject: Option<string>, layer: Layer, body: string)

  /** A stored JSON list: empty text reads as [], anything but a list is unparseable. */
  datatype Listing = NoText | Broken | Items(items: seq<Item>)

  /** A stored JSON object of bases keyed by repo label. */
  datatype Basing = NoBases | BrokenBases | Bases(bases: map<string, string>)

  datatype RepoRow = RepoRow(repo: string, body: string)
  datatype RepoCell = RepoCell(repo: string, value: Option<string>)
  datatype LabelCell = LabelCell(account: string, listing: Listing)

  /** One purge target and all it stores, by purge strategy. */
  datatype Store =
    | RowStore(lane: string, rows: seq<RepoRow>)
    | RepoColumn(lane: string, cells: seq<RepoCell>, reset: Option<string>)
    | LabelColumn(lane: string, labelled: seq<LabelCell>)
    | SliceColumn(lane: string, surfaces: map<string, Listing>)
    | BaseColumn(lane: string, basings: map<string, Basing>)

  // ---------------------------------------------------------------- the purge

  /** A narrowing of one repo's consent. */
  datatype Withdrawal = Withdrawal(repo: Repo, lanes: set<string>, slices: set<string>)

  function WithdrawalOf(repo: Repo, consent: Consent): Withdrawal {
    var before, after := RepoScopes(repo.consent), RepoScopes(consent);
    Withdrawal(repo, before.lanes - after.lanes, before.slices - after.slices)
  }

  function AffectedLanes(wd: Withdrawal): set<string> {
    wd.lanes + if wd.slices != {} then {CORPUS} else {}
  }

  /** The purge's reading of a label: folded, not stripped. */
  predicate Labelled(fold: Fold, subject: Option<string>, wd: Withdrawal) {
    subject.Some? && fold(subject.value) == fold(wd.repo.name)
  }

  predicate InRemovedSlice(item: Item, wd: Withdrawal) {
    item.layer.Named? && item.layer.name in wd.slices
  }

  /** Looking such a layer up raises, and the withdrawal fails with it. */
  predicate HasNested(items: seq<Item>) {
    exists i :: 0 <= i < |items| && items[i].layer.Nested?
  }

  predicate PurgeFails(store: Store, wd: Withdrawal) {
    && store.SliceColumn? && store.lane == CORPUS && wd.slices != {} && wd.repo.account in store.surfaces
    && store.surfaces[wd.repo.account].Items? && HasNested(store.surfaces[wd.repo.account].items)
  }

  function WithoutRows(rows: seq<RepoRow>, repo: string): seq<RepoRow> {
    if rows == [] then []
    else (if rows[0].repo == repo then [] else [rows[0]]) + WithoutRows(rows[1..], repo)
  }

  function WithoutItems(items: seq<Item>, gone: Item -> bool): seq<Item> {
    if items == [] then []
    else (if gone(items[0]) then [] else [items[0]]) + WithoutItems(items[1..], gone)
  }

  function PurgedListing(listing: Listing, gone: Item -> bool): Listing {
    match listing
    case NoText => NoText
    case Broken => Items([])
    case Items(items) => Items(WithoutItems(items, gone))
  }

  function PurgedBasing(fold: Fold, basing: Basing, wd: Withdrawal): Basing {
    match basing
    case NoBases => NoBases
    case BrokenBases => Bases(map[])
    case Bases(bases) => Bases(map key | key in bases && !Labelled(fold, Some(key), wd) :: bases[key])
  }

  function PurgedCell(cell: RepoCell, reset: Option<string>, wd: Withdrawal): RepoCell {
    if cell.repo == wd.repo.id then cell.(value := reset) else cell
  }

  function PurgedLabelCell(fold: Fold, cell: LabelCell, wd: Withdrawal): LabelCell {
    if cell.account == wd.repo.account
    then cell.(listing := PurgedListing(cell.listing, (item: Item) => Labelled(fold, item.subject, wd)))
    else cell
  }

  /** One target after the purge. */
  function PurgedStore(fold: Fold, store: Store, wd: Withdrawal): Store {
    if store.lane !in AffectedLanes(wd) then store
    else
      match store
      case RowStore(lane, rows) => RowStore(lane, WithoutRows(rows, wd.repo.id))
      case RepoColumn(lane, cells, reset) =>
        RepoColumn(lane, seq(|cells|, i requires 0 <= i < |cells| => PurgedCell(cells[i], reset, wd)), reset)
      case LabelColumn(lane, cells) =>
        LabelColumn(lane, seq(|cells|, i requires 0 <= i < |cells| => PurgedLabelCell(fold, cells[i], wd)))
      case SliceColumn(lane, surfaces) =>
        if lane == CORPUS && wd.slices != {} && wd.repo.account in surfaces
        then SliceColumn(lane,
                         surfaces[wd.repo.account :=
                                  PurgedListing(surfaces[wd.repo.account], (item: Item) => InRemovedSlice(item, wd))])
        else store
      case BaseColumn(lane, basings) =>
        if lane == CORPUS && CORPUS in wd.lanes && wd.repo.account in basings
        then BaseColumn(lane, basings[wd.repo.account := PurgedBasing(fold, basings[wd.repo.account], wd)])
        else store
  }

  // ---------------------------------------------------------------- what a filter leaves

  /** The positions a filter keeps, from `k` on. */
  function Kept(items: seq<Item>, gone: Item -> bool, k: nat): (kept: seq<nat>)
    requires k <= |items|
    decreases |items| - k
    ensures forall i :: 0 <= i < |kept| ==> k <= kept[i] < |items| && !gone(items[kept[i]])
    ensures forall i, j :: 0 <= i < j < |kept| ==> kept[i] < kept[j]
  {
    if k == |items| then [] else (if gone(items[k]) then [] else [k]) + Kept(items, gone, k + 1)
  }

  lemma {:induction false} KeptAll(items: seq<Item>, gone: Item -> bool, k: nat, at: nat)
    requires k <= at < |items| && !gone(items[at])
    ensures at in Kept(items, gone, k)
    decreases |items| - k
  {
    if k < at { KeptAll(items, gone, k + 1, at); }
  }

  lemma {:induction false} KeptItems(items: seq<Item>, gone: Item -> bool, k: nat)
    requires k <= |items|
    ensures WithoutItems(items[k..], gone) ==
      seq(|Kept(items, gone, k)|, i requires 0 <= i < |Kept(items, gone, k)| => items[Kept(items, gone, k)[i]])
    decreases |items| - k
  {
    if k < |items| {
      KeptItems(items, gone, k + 1);
      assert items[k..][0] == items[k] && items[k..][1..] == items[k + 1..];
    }
  }

  /** The survivors of a filter: everything that was not meant, in order, nothing else. */
  lemma SurvivorsInOrder(items: seq<Item>, gone: Item -> bool)
    ensures var kept, left := Kept(items, gone, 0), WithoutItems(items, gone);
      && |kept| == |left|
      && (forall i :: 0 <= i < |kept| ==> left[i] == items[kept[i]])
      && (forall i, j :: 0 <= i < j < |kept| ==> kept[i] < kept[j])
      && (forall k :: 0 <= k < |items| ==> (k in kept <==> !gone(items[k])))
  {
    KeptItems(items, gone, 0);
    assert items[0..] == items;
    forall k | 0 <= k < |items| && !gone(items[k]) ensures k in Kept(items, gone, 0) {
      KeptAll(items, gone, 0, k);
    }
  }

  lemma {:induction false} WithoutItemsMembers(items: seq<Item>, gone: Item -> bool, item: Item)
    ensures item in WithoutItems(items, gone) <==> item in items && !gone(item)
  {
    if items != [] {
      WithoutItemsMembers(items[1..], gone, item);
      assert items == [items[0]] + items[1..];
    }
  }

  lemma {:induction false} WithoutRowsMembers(rows: seq<RepoRow>, repo: string, row: RepoRow)
    ensures row in WithoutRows(rows, repo) <==> row in rows && row.repo != repo
  {
    if rows != [] {
      WithoutRowsMembers(rows[1..], repo, row);
      assert rows == [rows[0]] + rows[1..];
    }
  }

  // ---------------------------------------------------------------- erasure

  /** Nothing in the store is attributable to the repo: by id, by folded label, by removed slice. */
  ghost predicate Erased(fold: Fold, store: Store, wd: Withdrawal) {
    match store
    case RowStore(_, rows) => forall i :: 0 <= i < |rows| ==> rows[i].repo != wd.repo.id
    case RepoColumn(_, cells, reset) =>
      forall i :: 0 <= i < |cells| && cells[i].repo == wd.repo.id ==> cells[i].value == reset
    case LabelColumn(_, cells) =>
      forall i :: 0 <= i < |cells| && cells[i].account == wd.repo.account ==>
        !cells[i].listing.Broken?
          && (cells[i].listing.Items? ==>
              forall item :: item in cells[i].listing.items ==> !Labelled(fold, item.subject, wd))
    case SliceColumn(_, surfaces) =>
      wd.repo.account in surfaces && wd.slices != {} ==>
        var listing := surfaces[wd.repo.account];
        !listing.Broken? && (listing.Items? ==> forall item :: item in listing.items ==> !InRemovedSlice(item, wd))
    case BaseColumn(_, basings) =>
      wd.repo.account in basings && CORPUS in wd.lanes ==>
        var basing := basings[wd.repo.account];
        !basing.BrokenBases? && (basing.Bases? ==> forall key :: key in basing.bases ==> !Labelled(fold, Some(key), wd))
  }

  /** The two account-wide mirrors belong to the corpus lane. */
  predicate WellTargeted(store: Store) {
    store.SliceColumn? || store.BaseColumn? ==> store.lane == CORPUS
  }

  /** For every affected lane and every strategy nothing attributable is left, whatever was stored. */
  lemma PurgeErases(fold: Fold, store: Store, wd: Withdrawal)
    requires WellTargeted(store) && store.lane in AffectedLanes(wd)
    ensures Erased(fold, PurgedStore(fold, store, wd), wd)
  {
    match store
    case RowStore(_, rows) =>
      forall row | row in WithoutRows(rows, wd.repo.id)
        ensures row.repo != wd.repo.id { WithoutRowsMembers(rows, wd.repo.id, row); }
    case LabelColumn(_, cells) =>
      forall i, item | 0 <= i < |cells| && cells[i].listing.Items?
          && item in WithoutItems(cells[i].listing.items, (item: Item) => Labelled(fold, item.subject, wd))
        ensures !Labelled(fold, item.subject, wd)
      {
        WithoutItemsMembers(cells[i].listing.items, (item: Item) => Labelled(fold, item.subject, wd), item);
      }
    case SliceColumn(_, surfaces) =>
      if wd.repo.account in surfaces && surfaces[wd.repo.account].Items? {
        var items := surfaces[wd.repo.account].items;
        forall item | item in WithoutItems(items, (item: Item) => InRemovedSlice(item, wd))
          ensures !InRemovedSlice(item, wd) {
          WithoutItemsMembers(items, (item: Item) => InRemovedSlice(item, wd), item);
        }
      }
    case _ =>
  }

  lemma {:induction false} NothingGone(items: seq<Item>, gone: Item -> bool)
    requires forall item :: item in items ==> !gone(item)
    ensures WithoutItems(items, gone) == items
  {
    if items != [] {
      assert items == [items[0]] + items[1..];
      assert items[0] in items;
      NothingGone(items[1..], gone);
    }
  }

  lemma {:induction false} NoRowGone(rows: seq<RepoRow>, repo: string)
    requires forall row :: row in rows ==> row.repo != repo
    ensures WithoutRows(rows, repo) == rows
  {
    if rows != [] {
      assert rows == [rows[0]] + rows[1..];
      assert rows[0] in rows;
      NoRowGone(rows[1..], repo);
    }
  }

  /** A store with nothing attributable left is not touched: in particular purging twice is purging once. */
  lemma PurgeLeavesTheRest(fold: Fold, store: Store, wd: Withdrawal)
    requires WellTargeted(store) && Erased(fold, store, wd)
    ensures PurgedStore(fold, store, wd) == store
  {
    match store
    case RowStore(_, rows) => NoRowGone(rows, wd.repo.id);
    case RepoColumn(_, cells, reset) =>
      assert seq(|cells|, i requires 0 <= i < |cells| => PurgedCell(cells[i], reset, wd)) == cells;
    case LabelColumn(_, cells) =>
      forall i | 0 <= i < |cells| ensures PurgedLabelCell(fold, cells[i], wd) == cells[i] {
        if cells[i].account == wd.repo.account && cells[i].listing.Items? {
          NothingGone(cells[i].listing.items, (item: Item) => Labelled(fold, item.subject, wd));
        }
      }
      assert seq(|cells|, i requires 0 <= i < |cells| => PurgedLabelCell(fold, cells[i], wd)) == cells;
    case SliceColumn(_, surfaces) =>
      if wd.slices != {} && wd.repo.account in surfaces && surfaces[wd.repo.account].Items? {
        NothingGone(surfaces[wd.repo.account].items, (item: Item) => InRemovedSlice(item, wd));
      }
    case BaseColumn(_, basings) =>
      if CORPUS in wd.lanes && wd.repo.account in basings && basings[wd.repo.account].Bases? {
        var bases := basings[wd.repo.account].bases;
        assert (map key | key in bases && !Labelled(fold, Some(key), wd) :: bases[key]) == bases;
      }
  }

  /** Widening a consent, or recording the same one again, alters no store. */
  lemma WideningAltersNothing(fold: Fold, store: Store, repo: Repo, consent: Consent)
    requires RepoScopes(repo.consent).lanes <= RepoScopes(consent).lanes
    requires RepoScopes(repo.consent).slices <= RepoScopes(consent).slices
    ensures PurgedStore(fold, store, WithdrawalOf(repo, consent)) == store
    ensures !PurgeFails(store, WithdrawalOf(repo, consent))
  {
    assert AffectedLanes(WithdrawalOf(repo, consent)) == {};
  }

  /** A stored entry that the gate attributes to the repo outlives the withdrawal exactly when its
      label, padded, folds differently from its stripped form: the gate strips, the purge does not. */
  lemma PaddedLabelSurvivesIff(fold: Fold, items: seq<Item>, wd: Withdrawal, item: Item)
    requires item in items && Names(fold, item.subject, wd.repo)
    ensures item in WithoutItems(items, (item: Item) => Labelled(fold, item.subject, wd)) <==>
      fold(item.subject.value) != fold(Text.Strip(item.subject.value))
  {
    WithoutItemsMembers(items, (item: Item) => Labelled(fold, item.subject, wd), item);
  }

  // ---------------------------------------------------------------- account-wide readings

  function ScopesOf(repos: seq<Repo>): (r: seq<Scopes>)
    ensures |r| == |repos| && forall i :: 0 <= i < |r| ==> r[i] == RepoScopes(repos[i].consent)
  {
    seq(|repos|, i requires 0 <= i < |repos| => RepoScopes(repos[i].consent))
  }

  function CommonSlices(scopes: seq<Scopes>): (r: set<string>)
    requires scopes != []
    ensures forall slice :: slice in r <==> forall i :: 0 <= i < |scopes| ==> slice in scopes[i].slices
  {
    if |scopes| == 1 then scopes[0].slices
    else
      var rest := CommonSlices(scopes[1..]);
      assert forall i :: 1 <= i < |scopes| ==> scopes[i] == scopes[1..][i - 1];
      scopes[0].slices * rest
  }

  function UnionOfLanes(scopes: seq<Scopes>): (r: set<string>)
    ensures forall lane :: lane in r <==> exists i :: 0 <= i < |scopes| && lane in scopes[i].lanes
  {
    if scopes == [] then {}
    else
      var rest := UnionOfLanes(scopes[1..]);
      assert forall i :: 1 <= i < |scopes| ==> scopes[i] == scopes[1..][i - 1];
      scopes[0].lanes + rest
  }

  /** `corpus_slices_permitted` on the account's repos; None: nothing to enforce against. */
  function CorpusSlicesPermitted(repos: seq<Repo>): Option<set<string>> {
    if repos == [] then None else Some(CommonSlices(ScopesOf(repos)))
  }

  /** `lanes_withheld` */
  function LanesWithheld(repos: seq<Repo>): set<string> {
    if repos == [] then {}
    else
      LANES - UnionOfLanes(ScopesOf(repos)) + if CommonSlices(ScopesOf(repos)) == {} then {CORPUS} else {}
  }

  /** What the dashboard calls withheld is what the gates refuse: the corpus when no slice may ship, any
      other lane when no repo permits it. */
  lemma WithheldAgreesWithTheGates(repos: seq<Repo>, lane: string)
    requires lane in LANES && repos != []
    ensures lane in LanesWithheld(repos) <==>
      if lane == CORPUS then CorpusSlicesPermitted(repos) == Some({})
      else forall i :: 0 <= i < |repos| ==> lane !in RepoScopes(repos[i].consent).lanes
  {
    var scopes := ScopesOf(repos);
    if lane == CORPUS {
      forall i | 0 <= i < |repos| ensures CORPUS in scopes[i].lanes <==> scopes[i].slices != {} {
        CorpusLaneIffSlices(repos[i].consent);
      }
      if CommonSlices(scopes) != {} {
        var slice :| slice in CommonSlices(scopes);
        assert slice in scopes[0].slices;
        assert CORPUS in scopes[0].lanes;
      }
    }
  }
}
