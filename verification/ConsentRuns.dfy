// Consent over whole runs: publishes through the gates, consent changes with their purge, and caches
// that rot, in any order. What is stored about a repo is what its consent permits now.
module ConsentRuns {
  import opened Wrappers
  import opened PublishScope
  import Text

  datatype World = World(repos: map<string, Repo>, stores: seq<Store>)

  datatype Step =
    | PublishRow(at: nat, row: RepoRow)                                                // put_activity
    | PublishCell(at: nat, cell: nat, value: Option<string>)                           // quota, runners, mood, ...
    | PublishItems(at: nat, cell: nat, items: seq<Item>, publisher: Option<string>)    // live runs, reviews, ledger
    | PublishFiles(at: nat, account: string, items: seq<Item>)                         // put_surface, files
    | PublishBases(at: nat, account: string, bases: map<string, string>, publisher: Option<string>)
    | Corrupt(at: nat, cell: nat, account: string)
    | RotLayer(at: nat, account: string, k: nat)
    | ChangeConsent(id: string, consent: Consent)
    | Connect(repo: Repo)
    | Disconnect(id: string)
    | Rebind(daemon: nat, to: string)                                                  // a daemon registers again

  // ---------------------------------------------------------------- steps

  ghost function PermittedItems(fold: Fold, repos: map<string, Repo>, account: string, items: seq<Item>,
                                publisher: Option<string>, lane: string): seq<Item> {
    WithoutItems(items, (item: Item) => !SubjectPermits(fold, repos, account, item.subject, publisher, lane))
  }

  ghost function PermittedBases(fold: Fold, repos: map<string, Repo>, account: string, bases: map<string, string>,
                                publisher: Option<string>): map<string, string> {
    map key | key in bases && key != "" && SubjectPermits(fold, repos, account, Some(key), publisher, CORPUS) ::
      bases[key]
  }

  /** Some repo of the account withholds the layer; a request carries only layers that are strings. */
  ghost predicate LayerWithheld(repos: map<string, Repo>, account: string, layer: Layer) {
    layer.Named? ==>
      exists id :: id in repos && repos[id].account == account && layer.name !in RepoScopes(repos[id].consent).slices
  }

  ghost function PermittedFiles(repos: map<string, Repo>, account: string, items: seq<Item>): seq<Item> {
    WithoutItems(items, (item: Item) => LayerWithheld(repos, account, item.layer))
  }

  ghost function Published(fold: Fold, repos: map<string, Repo>, store: Store, step: Step): Store {
    match (store, step)
    case (RowStore(lane, rows), PublishRow(_, row)) =>
      if LanePermitted(repos, Some(row.repo), lane) then RowStore(lane, rows + [row]) else store
    case (RepoColumn(lane, cells, reset), PublishCell(_, k, value)) =>
      if k < |cells| then
        RepoColumn(lane,
                   cells[k :=
                         cells[k].(value :=
                                   if LanePermitted(repos, Some(cells[k].repo), lane) then value else reset)], reset)
      else store
    case (LabelColumn(lane, cells), PublishItems(_, k, items, publisher)) =>
      if k < |cells| then
        LabelColumn(lane,
                    cells[k :=
                          cells[k].(listing :=
                                    Items(PermittedItems(fold, repos, cells[k].account, items, publisher, lane)))])
      else store
    case (SliceColumn(lane, surfaces), PublishFiles(_, account, items)) =>
      SliceColumn(lane, surfaces[account := Items(PermittedFiles(repos, account, items))])
    case (BaseColumn(lane, basings), PublishBases(_, account, bases, publisher)) =>
      BaseColumn(lane, basings[account := Bases(PermittedBases(fold, repos, account, bases, publisher))])
    case (LabelColumn(lane, cells), Corrupt(_, k, _)) =>
      if k < |cells| then LabelColumn(lane, cells[k := cells[k].(listing := Broken)]) else store
    case (SliceColumn(lane, surfaces), Corrupt(_, _, account)) => SliceColumn(lane, surfaces[account := Broken])
    case (SliceColumn(lane, surfaces), RotLayer(_, account, k)) =>
      if account in surfaces && surfaces[account].Items? && k < |surfaces[account].items| then
        SliceColumn(lane,
                    surfaces[account :=
                             Items(surfaces[account].items[k := surfaces[account].items[k].(layer := Nested)])])
      else store
    case (BaseColumn(lane, basings), Corrupt(_, _, account)) => BaseColumn(lane, basings[account := BrokenBases])
    case _ => store
  }

  function PurgedStores(fold: Fold, stores: seq<Store>, wd: Withdrawal): (r: seq<Store>)
    ensures |r| == |stores| && forall i :: 0 <= i < |r| ==> r[i] == PurgedStore(fold, stores[i], wd)
  {
    seq(|stores|, i requires 0 <= i < |stores| => PurgedStore(fold, stores[i], wd))
  }

  predicate WithdrawalFails(stores: seq<Store>, wd: Withdrawal) {
    exists i :: 0 <= i < |stores| && PurgeFails(stores[i], wd)
  }

  /** A daemon's columns keep what they hold and answer to another repo. */
  function Rebound(store: Store, daemon: nat, repo: string): Store {
    match store
    case RepoColumn(lane, cells, reset) =>
      if daemon < |cells| then RepoColumn(lane, cells[daemon := cells[daemon].(repo := repo)], reset) else store
    case _ => store
  }

  function ReboundStores(stores: seq<Store>, daemon: nat, repo: string): (r: seq<Store>)
    ensures |r| == |stores| && forall i :: 0 <= i < |r| ==> r[i] == Rebound(stores[i], daemon, repo)
  {
    seq(|stores|, i requires 0 <= i < |stores| => Rebound(stores[i], daemon, repo))
  }

  /** A withdrawal whose purge raises is rolled back whole: nothing is erased and the consent stays. */
  ghost function Next(fold: Fold, w: World, step: Step): World {
    if step.ChangeConsent? then
      if step.id in w.repos && !WithdrawalFails(w.stores, WithdrawalOf(w.repos[step.id], step.consent)) then
        World(w.repos[step.id := w.repos[step.id].(consent := step.consent)],
              PurgedStores(fold, w.stores, WithdrawalOf(w.repos[step.id], step.consent)))
      else w
    else if step.Connect? then if step.repo.id in w.repos then w else w.(repos := w.repos[step.repo.id := step.repo])
    else if step.Disconnect? then w.(repos := w.repos - {step.id})
    else if step.Rebind? then w.(stores := ReboundStores(w.stores, step.daemon, step.to))
    else if step.at < |w.stores|
      then w.(stores := w.stores[step.at := Published(fold, w.repos, w.stores[step.at], step)])
    else w
  }

  ghost function Run(fold: Fold, w: World, steps: seq<Step>): World {
    if steps == [] then w else Next(fold, Run(fold, w, steps[..|steps| - 1]), steps[|steps| - 1])
  }

  // ---------------------------------------------------------------- what is kept

  /** The gate and the purge read the label alike. */
  predicate Unpadded(fold: Fold, subject: Option<string>) {
    subject.Some? ==> fold(subject.value) == fold(Text.Strip(subject.value))
  }

  ghost predicate LaneOk(repos: map<string, Repo>, id: string, lane: string) {
    id in repos ==> lane in RepoScopes(repos[id].consent).lanes
  }

  /** Every repo the entry could be about permits the lane now. */
  ghost predicate SubjectOk(fold: Fold, repos: map<string, Repo>, account: string, subject: Option<string>,
                            lane: string) {
    Unpadded(fold, subject) && forall id :: IsSubject(fold, repos, account, subject, id) ==> LaneOk(repos, id, lane)
  }

  ghost predicate LayerOk(repos: map<string, Repo>, account: string, layer: Layer) {
    layer.Named? ==>
      forall id :: id in repos && repos[id].account == account ==> layer.name in RepoScopes(repos[id].consent).slices
  }

  ghost predicate LabelCellOk(fold: Fold, repos: map<string, Repo>, cell: LabelCell, lane: string) {
    cell.listing.Items? ==>
      forall item :: item in cell.listing.items ==> SubjectOk(fold, repos, cell.account, item.subject, lane)
  }

  ghost predicate SurfaceOk(repos: map<string, Repo>, account: string, listing: Listing) {
    listing.Items? ==> forall item :: item in listing.items ==> LayerOk(repos, account, item.layer)
  }

  ghost predicate BasingOk(fold: Fold, repos: map<string, Repo>, account: string, basing: Basing) {
    basing.Bases? ==> forall key :: key in basing.bases ==> SubjectOk(fold, repos, account, Some(key), CORPUS)
  }

  /** Everything stored about a repo is within its current consent. */
  ghost predicate StoreOk(fold: Fold, repos: map<string, Repo>, store: Store) {
    match store
    case RowStore(lane, rows) => forall row :: row in rows ==> LaneOk(repos, row.repo, lane)
    case RepoColumn(lane, cells, reset) =>
      forall i :: 0 <= i < |cells| && cells[i].value != reset ==> LaneOk(repos, cells[i].repo, lane)
    case LabelColumn(lane, cells) => forall i :: 0 <= i < |cells| ==> LabelCellOk(fold, repos, cells[i], lane)
    case SliceColumn(_, surfaces) =>
      forall account :: account in surfaces ==> SurfaceOk(repos, account, surfaces[account])
    case BaseColumn(_, basings) =>
      forall account :: account in basings ==> BasingOk(fold, repos, account, basings[account])
  }

  ghost predicate Consented(fold: Fold, w: World) {
    && (forall id :: id in w.repos ==> w.repos[id].id == id)
    && (forall i :: 0 <= i < |w.stores| ==> WellTargeted(w.stores[i]) && StoreOk(fold, w.repos, w.stores[i]))
  }

  // ---------------------------------------------------------------- connecting a repo

  /** Nothing already stored about this repo lies outside its consent. */
  ghost predicate StoreWithin(fold: Fold, store: Store, repo: Repo) {
    var scopes := RepoScopes(repo.consent);
    match store
    case RowStore(lane, rows) => forall row :: row in rows && row.repo == repo.id ==> lane in scopes.lanes
    case RepoColumn(lane, cells, reset) =>
      forall i :: 0 <= i < |cells| && cells[i].repo == repo.id && cells[i].value != reset ==> lane in scopes.lanes
    case LabelColumn(lane, cells) =>
      forall i, item ::
        (0 <= i < |cells| && cells[i].account == repo.account && cells[i].listing.Items?
         && item in cells[i].listing.items && Names(fold, item.subject, repo))
        ==> lane in scopes.lanes
    case SliceColumn(_, surfaces) =>
      repo.account in surfaces && surfaces[repo.account].Items? ==>
        forall item :: item in surfaces[repo.account].items && item.layer.Named? ==> item.layer.name in scopes.slices
    case BaseColumn(_, basings) =>
      repo.account in basings && basings[repo.account].Bases? ==>
        forall key :: key in basings[repo.account].bases && Names(fold, Some(key), repo) ==> CORPUS in scopes.lanes
  }

  ghost predicate StoredWithin(fold: Fold, stores: seq<Store>, repo: Repo) {
    forall i :: 0 <= i < |stores| ==> StoreWithin(fold, stores[i], repo)
  }

  lemma SubjectWith(fold: Fold, repos: map<string, Repo>, repo: Repo, account: string, subject: Option<string>,
                    lane: string)
    requires repo.id !in repos && SubjectOk(fold, repos, account, subject, lane)
    ensures SubjectOk(fold, repos[repo.id := repo], account, subject, lane) <==>
      (account == repo.account && Names(fold, subject, repo) ==> lane in RepoScopes(repo.consent).lanes)
  {
    var more := repos[repo.id := repo];
    assert IsSubject(fold, more, account, subject, repo.id) <==> account == repo.account && Names(fold, subject, repo);
    forall id | id != repo.id
      ensures IsSubject(fold, more, account, subject, id) <==> IsSubject(fold, repos, account, subject, id) {
    }
  }

  lemma LayerWith(repos: map<string, Repo>, repo: Repo, account: string, layer: Layer)
    requires repo.id !in repos && LayerOk(repos, account, layer)
    ensures LayerOk(repos[repo.id := repo], account, layer) <==>
      (account == repo.account && layer.Named? ==> layer.name in RepoScopes(repo.consent).slices)
  {
    if account == repo.account && layer.Named? {
      assert repos[repo.id := repo][repo.id].account == account;
    }
  }

  lemma ConnectStoreIff(fold: Fold, repos: map<string, Repo>, store: Store, repo: Repo)
    requires repo.id !in repos && StoreOk(fold, repos, store)
    ensures StoreOk(fold, repos[repo.id := repo], store) <==> StoreWithin(fold, store, repo)
  {
    var more := repos[repo.id := repo];
    match store
    case RowStore(_, rows) =>
    case RepoColumn(_, cells, _) =>
    case LabelColumn(lane, cells) =>
      forall i, item | 0 <= i < |cells| && cells[i].listing.Items? && item in cells[i].listing.items
        ensures SubjectOk(fold, more, cells[i].account, item.subject, lane) <==>
          (cells[i].account == repo.account && Names(fold, item.subject, repo) ==>
           lane in RepoScopes(repo.consent).lanes)
      {
        assert LabelCellOk(fold, repos, cells[i], lane);
        SubjectWith(fold, repos, repo, cells[i].account, item.subject, lane);
      }
      assert StoreOk(fold, more, store) <==> forall i :: 0 <= i < |cells| ==> LabelCellOk(fold, more, cells[i], lane);
    case SliceColumn(_, surfaces) =>
      forall account, item | account in surfaces && surfaces[account].Items? && item in surfaces[account].items
        ensures LayerOk(more, account, item.layer) <==>
          (account == repo.account && item.layer.Named? ==> item.layer.name in RepoScopes(repo.consent).slices)
      {
        assert SurfaceOk(repos, account, surfaces[account]);
        LayerWith(repos, repo, account, item.layer);
      }
    case BaseColumn(_, basings) =>
      forall account, key | account in basings && basings[account].Bases? && key in basings[account].bases
        ensures SubjectOk(fold, more, account, Some(key), CORPUS) <==>
          (account == repo.account && Names(fold, Some(key), repo) ==> CORPUS in RepoScopes(repo.consent).lanes)
      {
        assert BasingOk(fold, repos, account, basings[account]);
        SubjectWith(fold, repos, repo, account, Some(key), CORPUS);
      }
  }

  /** Connecting a repo keeps every stored copy within consent if and only if what is stored about it already lies
      within the consent it comes with: connecting purges nothing. */
  lemma ConnectKeepsConsentedIff(fold: Fold, w: World, repo: Repo)
    requires Consented(fold, w) && repo.id !in w.repos
    ensures Consented(fold, Next(fold, w, Connect(repo))) <==> StoredWithin(fold, w.stores, repo)
  {
    forall i | 0 <= i < |w.stores|
      ensures StoreOk(fold, w.repos[repo.id := repo], w.stores[i]) <==> StoreWithin(fold, w.stores[i], repo)
    {
      ConnectStoreIff(fold, w.repos, w.stores[i], repo);
    }
  }

  lemma DisconnectStore(fold: Fold, repos: map<string, Repo>, store: Store, id: string)
    requires StoreOk(fold, repos, store)
    ensures StoreOk(fold, repos - {id}, store)
  {
    var fewer := repos - {id};
    assert forall account, subject, other ::
      IsSubject(fold, fewer, account, subject, other) ==> IsSubject(fold, repos, account, subject, other);
    match store
    case LabelColumn(lane, cells) =>
      forall i | 0 <= i < |cells|
        ensures LabelCellOk(fold, fewer, cells[i], lane) { assert LabelCellOk(fold, repos, cells[i], lane); }
    case BaseColumn(_, basings) =>
      forall account | account in basings
        ensures BasingOk(fold, fewer, account, basings[account]) {
        assert BasingOk(fold, repos, account, basings[account]);
      }
    case _ =>
  }

  // ---------------------------------------------------------------- registering a daemon again

  /** Nothing the daemon's column holds lies outside the consent of the repo it comes to answer to. */
  ghost predicate ColumnWithin(repos: map<string, Repo>, store: Store, daemon: nat, repo: string) {
    store.RepoColumn? && daemon < |store.cells| && store.cells[daemon].value != store.reset ==>
      LaneOk(repos, repo, store.lane)
  }

  ghost predicate DaemonWithin(w: World, daemon: nat, repo: string) {
    forall i :: 0 <= i < |w.stores| ==> ColumnWithin(w.repos, w.stores[i], daemon, repo)
  }

  lemma ReboundStoreIff(fold: Fold, repos: map<string, Repo>, store: Store, daemon: nat, repo: string)
    requires StoreOk(fold, repos, store)
    ensures StoreOk(fold, repos, Rebound(store, daemon, repo)) <==> ColumnWithin(repos, store, daemon, repo)
  {
    if store.RepoColumn? && daemon < |store.cells| {
      var bound := Rebound(store, daemon, repo);
      assert bound.cells[daemon].repo == repo && bound.cells[daemon].value == store.cells[daemon].value;
      assert forall i :: 0 <= i < |store.cells| && i != daemon ==> bound.cells[i] == store.cells[i];
    }
  }

  /** A daemon that registers again under another repo keeps what it has published: every stored copy stays within
      consent if and only if those copies lie within the consent of the new repo. */
  lemma RebindKeepsConsentedIff(fold: Fold, w: World, daemon: nat, repo: string)
    requires Consented(fold, w)
    ensures Consented(fold, Next(fold, w, Rebind(daemon, repo))) <==> DaemonWithin(w, daemon, repo)
  {
    forall i | 0 <= i < |w.stores|
      ensures StoreOk(fold, w.repos, Rebound(w.stores[i], daemon, repo)) <==>
        ColumnWithin(w.repos, w.stores[i], daemon, repo)
    {
      ReboundStoreIff(fold, w.repos, w.stores[i], daemon, repo);
    }
  }

  /** Published labels come without padding, a daemon registers under a repo whose consent covers its copies, and a repo
      comes with a consent that covers what is stored about it; nothing else is asked of a step. */
  ghost predicate Tidy(fold: Fold, w: World, step: Step) {
    match step
    case PublishItems(_, _, items, _) => forall item :: item in items ==> Unpadded(fold, item.subject)
    case PublishBases(_, _, bases, _) => forall key :: key in bases ==> Unpadded(fold, Some(key))
    case Rebind(daemon, to) => DaemonWithin(w, daemon, to)
    case Connect(repo) => repo.id !in w.repos ==> StoredWithin(fold, w.stores, repo)
    case _ => true
  }

  ghost predicate TidyRun(fold: Fold, w: World, steps: seq<Step>) {
    steps != [] ==>
      TidyRun(fold, w, steps[..|steps| - 1]) && Tidy(fold, Run(fold, w, steps[..|steps| - 1]), steps[|steps| - 1])
  }

  // ---------------------------------------------------------------- publishing

  lemma ItemsPass(fold: Fold, repos: map<string, Repo>, account: string, items: seq<Item>, publisher: Option<string>,
                  lane: string, item: Item)
    requires item in PermittedItems(fold, repos, account, items, publisher, lane)
    requires forall item :: item in items ==> Unpadded(fold, item.subject)
    ensures SubjectOk(fold, repos, account, item.subject, lane)
  {
    WithoutItemsMembers(items, (item: Item) =>
                        !SubjectPermits(fold, repos, account, item.subject, publisher, lane), item);
  }

  lemma FilesPass(repos: map<string, Repo>, account: string, items: seq<Item>, item: Item)
    requires item in PermittedFiles(repos, account, items)
    ensures LayerOk(repos, account, item.layer)
  {
    WithoutItemsMembers(items, (item: Item) => LayerWithheld(repos, account, item.layer), item);
  }

  lemma PublishKeepsOk(fold: Fold, repos: map<string, Repo>, store: Store, step: Step)
    requires StoreOk(fold, repos, store) && Tidy(fold, World(repos, [store]), step)
    ensures StoreOk(fold, repos, Published(fold, repos, store, step))
    ensures Published(fold, repos, store, step).lane == store.lane
    ensures (WellTargeted(store) ==> WellTargeted(Published(fold, repos, store, step)))
  {
    match (store, step)
    case (LabelColumn(lane, cells), PublishItems(_, k, items, publisher)) =>
      if k < |cells| {
        forall item | item in PermittedItems(fold, repos, cells[k].account, items, publisher, lane)
          ensures SubjectOk(fold, repos, cells[k].account, item.subject, lane)
        {
          ItemsPass(fold, repos, cells[k].account, items, publisher, lane, item);
        }
      }
    case (SliceColumn(lane, surfaces), PublishFiles(_, account, items)) =>
      forall item | item in PermittedFiles(repos, account, items)
        ensures LayerOk(repos, account, item.layer)
      {
        FilesPass(repos, account, items, item);
      }
    case _ =>
  }

  // ---------------------------------------------------------------- withdrawing

  ghost function WithConsent(repos: map<string, Repo>, id: string, consent: Consent): map<string, Repo>
    requires id in repos
  {
    repos[id := repos[id].(consent := consent)]
  }

  /** What a label's subjects permitted before, they permit after, unless it names the withdrawing repo
      and the lane was withdrawn. */
  lemma SubjectStaysOk(fold: Fold, repos: map<string, Repo>, id: string, consent: Consent, account: string,
                       subject: Option<string>, lane: string)
    requires id in repos && repos[id].id == id && SubjectOk(fold, repos, account, subject, lane)
    requires var wd := WithdrawalOf(repos[id], consent);
      lane in wd.lanes ==> account != repos[id].account || !Labelled(fold, subject, wd)
    ensures SubjectOk(fold, WithConsent(repos, id, consent), account, subject, lane)
  {
    var after := WithConsent(repos, id, consent);
    forall other | IsSubject(fold, after, account, subject, other) ensures LaneOk(after, other, lane) {
      assert IsSubject(fold, repos, account, subject, other);
    }
  }

  lemma LayerStaysOk(repos: map<string, Repo>, id: string, consent: Consent, account: string, item: Item)
    requires id in repos && LayerOk(repos, account, item.layer)
    requires account == repos[id].account ==> !InRemovedSlice(item, WithdrawalOf(repos[id], consent))
    ensures LayerOk(WithConsent(repos, id, consent), account, item.layer)
  {
  }

  lemma LabelCellStaysOk(fold: Fold, repos: map<string, Repo>, id: string, consent: Consent, cell: LabelCell,
                         lane: string)
    requires id in repos && repos[id].id == id && LabelCellOk(fold, repos, cell, lane)
    ensures var wd := WithdrawalOf(repos[id], consent);
      LabelCellOk(fold, WithConsent(repos, id, consent), if lane in AffectedLanes(wd)
                  then PurgedLabelCell(fold, cell, wd) else cell, lane)
  {
    var wd := WithdrawalOf(repos[id], consent);
    if cell.listing.Items? {
      var gone := (item: Item) => Labelled(fold, item.subject, wd);
      forall item | item in cell.listing.items
        && (lane in wd.lanes ==> cell.account != repos[id].account || !gone(item))
        ensures SubjectOk(fold, WithConsent(repos, id, consent), cell.account, item.subject, lane)
      {
        SubjectStaysOk(fold, repos, id, consent, cell.account, item.subject, lane);
      }
      forall item | item in WithoutItems(cell.listing.items, gone) ensures item in cell.listing.items && !gone(item) {
        WithoutItemsMembers(cell.listing.items, gone, item);
      }
    }
  }

  lemma SurfaceStaysOk(fold: Fold, repos: map<string, Repo>, id: string, consent: Consent, account: string,
                       listing: Listing)
    requires id in repos && SurfaceOk(repos, account, listing)
    ensures var wd := WithdrawalOf(repos[id], consent);
      SurfaceOk(WithConsent(repos, id, consent), account,
        if wd.slices != {} && account == repos[id].account
          then PurgedListing(listing, (item: Item) => InRemovedSlice(item, wd)) else listing)
  {
    var wd := WithdrawalOf(repos[id], consent);
    if listing.Items? {
      var gone := (item: Item) => InRemovedSlice(item, wd);
      forall item | item in listing.items && (account == repos[id].account ==> !gone(item))
        ensures LayerOk(WithConsent(repos, id, consent), account, item.layer)
      {
        LayerStaysOk(repos, id, consent, account, item);
      }
      forall item | item in WithoutItems(listing.items, gone) ensures item in listing.items && !gone(item) {
        WithoutItemsMembers(listing.items, gone, item);
      }
    }
  }

  lemma BasingStaysOk(fold: Fold, repos: map<string, Repo>, id: string, consent: Consent, account: string,
                      basing: Basing)
    requires id in repos && repos[id].id == id && BasingOk(fold, repos, account, basing)
    ensures var wd := WithdrawalOf(repos[id], consent);
      BasingOk(fold, WithConsent(repos, id, consent), account,
        if CORPUS in wd.lanes && account == repos[id].account then PurgedBasing(fold, basing, wd) else basing)
  {
    var wd := WithdrawalOf(repos[id], consent);
    if basing.Bases? {
      forall key | key in basing.bases
        && (CORPUS in wd.lanes ==> account != repos[id].account || !Labelled(fold, Some(key), wd))
        ensures SubjectOk(fold, WithConsent(repos, id, consent), account, Some(key), CORPUS)
      {
        SubjectStaysOk(fold, repos, id, consent, account, Some(key), CORPUS);
      }
    }
  }

  lemma MirrorsStayOk(fold: Fold, repos: map<string, Repo>, store: Store, id: string, consent: Consent)
    requires id in repos && repos[id].id == id && WellTargeted(store) && StoreOk(fold, repos, store)
    requires store.SliceColumn? || store.BaseColumn?
    ensures StoreOk(fold, WithConsent(repos, id, consent), PurgedStore(fold, store, WithdrawalOf(repos[id], consent)))
  {
    var wd := WithdrawalOf(repos[id], consent);
    match store
    case SliceColumn(_, surfaces) =>
      forall account | account in surfaces
        ensures SurfaceOk(WithConsent(repos, id, consent), account,
                          if wd.slices != {} && account == repos[id].account
                          then PurgedListing(surfaces[account], (item: Item) => InRemovedSlice(item, wd))
                          else surfaces[account])
      {
        SurfaceStaysOk(fold, repos, id, consent, account, surfaces[account]);
      }
    case BaseColumn(_, basings) =>
      forall account | account in basings
        ensures BasingOk(fold, WithConsent(repos, id, consent), account,
                         if CORPUS in wd.lanes && account == repos[id].account
                         then PurgedBasing(fold, basings[account], wd) else basings[account])
      {
        BasingStaysOk(fold, repos, id, consent, account, basings[account]);
      }
  }

  lemma LabelColumnStaysOk(fold: Fold, repos: map<string, Repo>, store: Store, id: string, consent: Consent)
    requires id in repos && repos[id].id == id && store.LabelColumn? && StoreOk(fold, repos, store)
    ensures StoreOk(fold, WithConsent(repos, id, consent), PurgedStore(fold, store, WithdrawalOf(repos[id], consent)))
  {
    var wd, lane, cells := WithdrawalOf(repos[id], consent), store.lane, store.labelled;
    forall i | 0 <= i < |cells|
      ensures LabelCellOk(fold, WithConsent(repos, id, consent),
                          if lane in AffectedLanes(wd) then PurgedLabelCell(fold, cells[i], wd) else cells[i], lane)
    {
      LabelCellStaysOk(fold, repos, id, consent, cells[i], lane);
    }
  }

  lemma WithdrawalKeepsOk(fold: Fold, repos: map<string, Repo>, store: Store, id: string, consent: Consent)
    requires id in repos && repos[id].id == id && WellTargeted(store) && StoreOk(fold, repos, store)
    ensures StoreOk(fold, WithConsent(repos, id, consent), PurgedStore(fold, store, WithdrawalOf(repos[id], consent)))
  {
    match store
    case RowStore(lane, rows) =>
      forall row | row in WithoutRows(rows, id) ensures row in rows && row.repo != id {
        WithoutRowsMembers(rows, id, row);
      }
    case RepoColumn(lane, cells, reset) =>
    case LabelColumn(_, _) => LabelColumnStaysOk(fold, repos, store, id, consent);
    case SliceColumn(_, _) => MirrorsStayOk(fold, repos, store, id, consent);
    case BaseColumn(_, _) => MirrorsStayOk(fold, repos, store, id, consent);
  }

  // ---------------------------------------------------------------- whole runs

  lemma StepKeepsConsented(fold: Fold, w: World, step: Step)
    requires Consented(fold, w) && Tidy(fold, w, step)
    ensures Consented(fold, Next(fold, w, step))
  {
    if step.ChangeConsent? {
      if step.id in w.repos && !WithdrawalFails(w.stores, WithdrawalOf(w.repos[step.id], step.consent)) {
        forall i | 0 <= i < |w.stores|
          ensures StoreOk(fold, WithConsent(w.repos, step.id, step.consent),
                          PurgedStore(fold, w.stores[i], WithdrawalOf(w.repos[step.id], step.consent)))
        {
          WithdrawalKeepsOk(fold, w.repos, w.stores[i], step.id, step.consent);
        }
      }
    } else if step.Connect? {
      if step.repo.id !in w.repos { ConnectKeepsConsentedIff(fold, w, step.repo); }
    } else if step.Disconnect? {
      forall i | 0 <= i < |w.stores| ensures StoreOk(fold, w.repos - {step.id}, w.stores[i]) {
        DisconnectStore(fold, w.repos, w.stores[i], step.id);
      }
    } else if step.Rebind? {
      RebindKeepsConsentedIff(fold, w, step.daemon, step.to);
    } else if step.at < |w.stores| {
      PublishKeepsOk(fold, w.repos, w.stores[step.at], step);
    }
  }

  /** In every run, however publishes, consent changes, connects, disconnects, registrations and cache rot interleave,
      each stored copy is within the current consent of every connected repo it is about. */
  lemma {:induction false} StoredIsConsented(fold: Fold, w: World, steps: seq<Step>)
    requires Consented(fold, w)
    requires TidyRun(fold, w, steps)
    ensures Consented(fold, Run(fold, w, steps))
  {
    if steps != [] {
      StoredIsConsented(fold, w, steps[..|steps| - 1]);
      StepKeepsConsented(fold, Run(fold, w, steps[..|steps| - 1]), steps[|steps| - 1]);
    }
  }

  // ---------------------------------------------------------------- padding

  const OPEN_REPO := Repo("r", "a", "o/r", Tokens({"live_runs"}))
  const PADDED := Item(Some(" o/r"), NoLayer, "")
  const QUIET := World(map["r" := OPEN_REPO], [LabelColumn("live_runs", [LabelCell("a", NoText)])])
  const LISTED := QUIET.(stores := [LabelColumn("live_runs", [LabelCell("a", Items([PADDED]))])])

  lemma PaddedLabelNames(fold: Fold)
    ensures IsSubject(fold, QUIET.repos, "a", PADDED.subject, "r")
  {
    assert Text.Strip(" o/r") == "o/r" by {
      assert " o/r"[1..] == "o/r";
      assert Text.Strip("o/r") == "o/r";
    }
  }

  lemma PaddedRowIsPublished(fold: Fold)
    ensures Next(fold, QUIET, PublishItems(0, 0, [PADDED], Some("r"))) == LISTED
  {
    PaddedLabelNames(fold);
    assert SubjectPermits(fold, QUIET.repos, "a", PADDED.subject, Some("r"), "live_runs");
    NothingGone([PADDED], (item: Item) =>
                !SubjectPermits(fold, QUIET.repos, "a", item.subject, Some("r"), "live_runs"));
    var cells := [LabelCell("a", NoText)];
    assert cells[0 := cells[0].(listing := Items([PADDED]))] == [LabelCell("a", Items([PADDED]))];
  }

  lemma PaddedRowIsKept(fold: Fold)
    requires fold("o/r") != fold(" o/r")
    ensures PurgedStore(fold, LISTED.stores[0], WithdrawalOf(OPEN_REPO, Tokens({OFF}))) == LISTED.stores[0]
  {
    NothingGone([PADDED], (item: Item) => Labelled(fold, item.subject, WithdrawalOf(OPEN_REPO, Tokens({OFF}))));
  }

  /** With a padded label it fails: the row is published under the repo's consent, and is still there
      after that consent is withdrawn. */
  lemma PaddedRowOutlivesWithdrawal(fold: Fold)
    requires fold("o/r") != fold(" o/r")
    ensures Consented(fold, QUIET)
    ensures var withdrawn :=
      Next(fold, Next(fold, QUIET, PublishItems(0, 0, [PADDED], Some("r"))), ChangeConsent("r", Tokens({OFF})));
      && withdrawn.stores == LISTED.stores
      && IsSubject(fold, withdrawn.repos, "a", PADDED.subject, "r")
      && !LanePermitted(withdrawn.repos, Some("r"), "live_runs")
  {
    PaddedLabelNames(fold);
    PaddedRowIsPublished(fold);
    PaddedRowIsKept(fold);
    assert PurgedStores(fold, LISTED.stores, WithdrawalOf(OPEN_REPO, Tokens({OFF}))) == LISTED.stores;
  }

  // ---------------------------------------------------------------- rot that blocks a withdrawal

  const SHARING := Repo("r", "a", "o/r", Tokens({"authored"}))
  const PAGE := Item(None, Named("authored"), "")
  const MIRRORED := World(map["r" := SHARING], [SliceColumn(CORPUS, map["a" := Items([PAGE])])])

  /** A page of the corpus whose layer has rotted into an array: its owner can no longer withdraw consent, nothing is
      erased and the old consent stays. */
  lemma RottenLayerBlocksWithdrawal(fold: Fold)
    ensures Consented(fold, MIRRORED)
    ensures var rotten := Next(fold, MIRRORED, RotLayer(0, "a", 0));
      Next(fold, rotten, ChangeConsent("r", Tokens({OFF}))) == rotten
  {
    var rotten := Next(fold, MIRRORED, RotLayer(0, "a", 0));
    var items := rotten.stores[0].surfaces["a"].items;
    assert items == [PAGE.(layer := Nested)] && items[0].layer.Nested?;
    assert "authored" in RepoScopes(SHARING.consent).slices;
    assert PurgeFails(rotten.stores[0], WithdrawalOf(SHARING, Tokens({OFF})));
  }
}
