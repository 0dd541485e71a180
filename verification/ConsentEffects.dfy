// What a stored consent permits, what a publish stores and what a withdrawal takes away, written out
// on the stores themselves.
module ConsentEffects {
  import opened Wrappers
  import opened PublishScope
  import Text
  import ConsentRuns

  // ---------------------------------------------------------------- what a consent permits

  predicate IsSlice(name: string) {
    name in {"authored", "knowledge", "runs"}
  }

  /** The lanes other than the corpus. */
  predicate IsPlainLane(name: string) {
    name in {"runners", "live_runs", "activity", "quota", "pr_review_queue", "run_ledger", "news"}
  }

  /** No consent and a recorded no permit nothing; an empty one permits everything; else a lane or slice is permitted by
      its own name, every slice also by `corpus`, and the corpus lane whenever some slice is. */
  lemma ConsentPermits(consent: Consent, name: string)
    ensures consent == Unrecorded ==> RepoScopes(consent) == Scopes({}, {})
    ensures consent.Tokens? && "none" in consent.tokens ==> RepoScopes(consent) == Scopes({}, {})
    ensures consent == Blank ==>
      && (name in RepoScopes(consent).slices <==> IsSlice(name))
      && (name in RepoScopes(consent).lanes <==> IsPlainLane(name) || name == "corpus")
    ensures consent.Tokens? && "none" !in consent.tokens ==>
      && (name in RepoScopes(consent).slices <==>
            IsSlice(name) && (name in consent.tokens || "corpus" in consent.tokens))
      && (name != "corpus" ==> (name in RepoScopes(consent).lanes <==> IsPlainLane(name) && name in consent.tokens))
      && ("corpus" in RepoScopes(consent).lanes <==>
            "corpus" in consent.tokens || "authored" in consent.tokens || "knowledge" in consent.tokens
            || "runs" in consent.tokens)
  {
    if consent.Tokens? && "none" !in consent.tokens {
      assert "authored" in SLICES && "knowledge" in SLICES && "runs" in SLICES;
    }
  }

  /** A withdrawal is what was permitted and no longer is. */
  lemma WithdrawalIs(repo: Repo, consent: Consent, name: string)
    ensures var wd := WithdrawalOf(repo, consent);
      && wd.repo == repo
      && (name in wd.lanes <==> name in RepoScopes(repo.consent).lanes && name !in RepoScopes(consent).lanes)
      && (name in wd.slices <==> name in RepoScopes(repo.consent).slices && name !in RepoScopes(consent).slices)
      && (name in AffectedLanes(wd) <==> name in wd.lanes || (name == "corpus" && wd.slices != {}))
  {
  }

  // ---------------------------------------------------------------- the gate

  /** The repos of the account a label could name: it says something, and read without its padding it folds to their
      name. */
  predicate CouldName(fold: Fold, repos: map<string, Repo>, account: string, named: Option<string>, id: string) {
    && id in repos && repos[id].account == account && named.Some? && Text.Speaks(named.value)
    && fold(Text.Strip(named.value)) == fold(repos[id].name)
  }

  lemma CouldNameIs(fold: Fold, repos: map<string, Repo>, account: string, named: Option<string>, id: string)
    ensures CouldName(fold, repos, account, named, id) <==> IsSubject(fold, repos, account, named, id)
  {
    if named.Some? { var before, after := Text.StripIsTheMiddle(named.value); }
  }

  /** A row passes if all the repos it could be about permit its lane, or, if it could be about none, if its publisher
      does; a publisher that is no repo has nobody to ask. */
  lemma RowPasses(fold: Fold, repos: map<string, Repo>, account: string, named: Option<string>,
                  publisher: Option<string>, lane: string)
    ensures SubjectPermits(fold, repos, account, named, publisher, lane) <==>
      && (forall id :: CouldName(fold, repos, account, named, id) ==> lane in RepoScopes(repos[id].consent).lanes)
      && ((forall id :: !CouldName(fold, repos, account, named, id)) && publisher.Some? && publisher.value in repos ==>
            lane in RepoScopes(repos[publisher.value].consent).lanes)
  {
    forall id ensures CouldName(fold, repos, account, named, id) <==> IsSubject(fold, repos, account, named, id) {
      CouldNameIs(fold, repos, account, named, id);
    }
  }

  // ---------------------------------------------------------------- filters

  /** `after` is what of `before` is to stay, in order, `at` being the places it stood. */
  ghost predicate IsFiltered(before: seq<Item>, after: seq<Item>, stays: Item -> bool, at: seq<nat>) {
    && |at| == |after|
    && (forall j, k :: 0 <= j < k < |at| ==> at[j] < at[k])
    && (forall j :: 0 <= j < |at| ==> at[j] < |before| && after[j] == before[at[j]])
    && (forall i :: 0 <= i < |before| ==> (i in at <==> stays(before[i])))
  }

  ghost predicate Filters(before: seq<Item>, after: seq<Item>, stays: Item -> bool) {
    exists at :: IsFiltered(before, after, stays, at)
  }

  lemma WithoutFilters(before: seq<Item>, gone: Item -> bool, stays: Item -> bool)
    requires forall item :: stays(item) <==> !gone(item)
    ensures Filters(before, WithoutItems(before, gone), stays)
  {
    SurvivorsInOrder(before, gone);
    assert IsFiltered(before, WithoutItems(before, gone), stays, Kept(before, gone, 0));
  }

  // ---------------------------------------------------------------- the purge, store by store

  /** The rows of other repos, each once, in order. */
  ghost predicate RowsOfOthers(before: seq<RepoRow>, after: seq<RepoRow>, repo: string, at: seq<nat>) {
    && |at| == |after|
    && (forall j, k :: 0 <= j < k < |at| ==> at[j] < at[k])
    && (forall j :: 0 <= j < |at| ==> at[j] < |before| && after[j] == before[at[j]])
    && (forall i :: 0 <= i < |before| ==> (i in at <==> before[i].repo != repo))
  }

  function PlacesOfOthers(rows: seq<RepoRow>, repo: string, k: nat): (at: seq<nat>)
    requires k <= |rows|
    decreases |rows| - k
    ensures forall j :: 0 <= j < |at| ==> k <= at[j] < |rows| && rows[at[j]].repo != repo
    ensures forall i, j :: 0 <= i < j < |at| ==> at[i] < at[j]
  {
    if k == |rows| then [] else (if rows[k].repo == repo then [] else [k]) + PlacesOfOthers(rows, repo, k + 1)
  }

  lemma {:induction false} PlacesAreAll(rows: seq<RepoRow>, repo: string, k: nat, i: nat)
    requires k <= i < |rows| && rows[i].repo != repo
    ensures i in PlacesOfOthers(rows, repo, k)
    decreases |rows| - k
  {
    if k < i { PlacesAreAll(rows, repo, k + 1, i); }
  }

  lemma {:induction false} RowsAtPlaces(rows: seq<RepoRow>, repo: string, k: nat)
    requires k <= |rows|
    ensures var at, left := PlacesOfOthers(rows, repo, k), WithoutRows(rows[k..], repo);
      |left| == |at| && forall j :: 0 <= j < |at| ==> left[j] == rows[at[j]]
    decreases |rows| - k
  {
    if k < |rows| {
      RowsAtPlaces(rows, repo, k + 1);
      assert rows[k..][0] == rows[k] && rows[k..][1..] == rows[k + 1..];
    }
  }

  lemma RowsLeft(before: seq<RepoRow>, repo: string)
    ensures exists at :: RowsOfOthers(before, WithoutRows(before, repo), repo, at)
  {
    var at := PlacesOfOthers(before, repo, 0);
    RowsAtPlaces(before, repo, 0);
    assert before[0..] == before;
    forall i | 0 <= i < |before| && before[i].repo != repo ensures i in at { PlacesAreAll(before, repo, 0, i); }
    assert RowsOfOthers(before, WithoutRows(before, repo), repo, at);
  }

  /** A listing after a purge: what cannot be parsed goes whole, and of a list what is not meant stays. */
  ghost predicate ListingPurged(before: Listing, after: Listing, stays: Item -> bool) {
    match before
    case NoText => after == NoText
    case Broken => after == Items([])
    case Items(items) => after.Items? && Filters(items, after.items, stays)
  }

  lemma PurgedListingIs(before: Listing, gone: Item -> bool, stays: Item -> bool)
    requires forall item :: stays(item) <==> !gone(item)
    ensures ListingPurged(before, PurgedListing(before, gone), stays)
  {
    if before.Items? { WithoutFilters(before.items, gone, stays); }
  }

  /** The label does not fold to this name. */
  function NotAbout(fold: Fold, name: string): Item -> bool {
    (item: Item) => item.subject == None || fold(item.subject.value) != fold(name)
  }

  /** The layer is none of these slices. */
  function NotIn(slices: set<string>): Item -> bool {
    (item: Item) => item.layer.Named? ==> item.layer.name !in slices
  }

  /** The bases of other labels, unchanged. */
  ghost predicate BasingPurged(fold: Fold, before: Basing, after: Basing, name: string) {
    match before
    case NoBases => after == NoBases
    case BrokenBases => after == Bases(map[])
    case Bases(bases) =>
      && after.Bases?
      && (forall key :: key in after.bases <==> key in bases && fold(key) != fold(name))
      && (forall key :: key in after.bases ==> after.bases[key] == bases[key])
  }

  /** A store after the withdrawal of these lanes and slices by a repo: a store of an untouched lane is as it was, and
      in the others exactly what is the repo's goes. */
  ghost predicate StorePurged(fold: Fold, before: Store, after: Store, repo: Repo, lanes: set<string>,
                              slices: set<string>) {
    if before.lane !in lanes && (before.lane != "corpus" || slices == {}) then after == before
    else
      && after.lane == before.lane
      && match before
         case RowStore(_, rows) => after.RowStore? && exists at :: RowsOfOthers(rows, after.rows, repo.id, at)
         case RepoColumn(_, cells, reset) =>
           && after.RepoColumn? && after.reset == reset && |after.cells| == |cells|
           && forall i :: 0 <= i < |cells| ==>
                after.cells[i] == if cells[i].repo == repo.id then cells[i].(value := reset) else cells[i]
         case LabelColumn(_, cells) =>
           && after.LabelColumn? && |after.labelled| == |cells|
           && forall i :: 0 <= i < |cells| ==>
                && after.labelled[i].account == cells[i].account
                && (if cells[i].account == repo.account
                    then ListingPurged(cells[i].listing, after.labelled[i].listing, NotAbout(fold, repo.name))
                    else after.labelled[i] == cells[i])
         case SliceColumn(_, surfaces) =>
           && after.SliceColumn? && after.surfaces.Keys == surfaces.Keys
           && forall account :: account in surfaces ==>
                if account == repo.account && slices != {}
                then ListingPurged(surfaces[account], after.surfaces[account], NotIn(slices))
                else after.surfaces[account] == surfaces[account]
         case BaseColumn(_, basings) =>
           && after.BaseColumn? && after.basings.Keys == basings.Keys
           && forall account :: account in basings ==>
                if account == repo.account && "corpus" in lanes
                then BasingPurged(fold, basings[account], after.basings[account], repo.name)
                else after.basings[account] == basings[account]
  }

  lemma LabelsPurged(fold: Fold, cell: LabelCell, wd: Withdrawal)
    ensures var after := PurgedLabelCell(fold, cell, wd);
      && after.account == cell.account
      && (if cell.account == wd.repo.account
          then ListingPurged(cell.listing, after.listing, NotAbout(fold, wd.repo.name)) else after == cell)
  {
    PurgedListingIs(cell.listing, (item: Item) => Labelled(fold, item.subject, wd), NotAbout(fold, wd.repo.name));
  }

  lemma PurgeIs(fold: Fold, store: Store, wd: Withdrawal)
    requires WellTargeted(store)
    ensures StorePurged(fold, store, PurgedStore(fold, store, wd), wd.repo, wd.lanes, wd.slices)
  {
    if store.lane in AffectedLanes(wd) {
      match store
      case RowStore(_, rows) => RowsLeft(rows, wd.repo.id);
      case LabelColumn(_, cells) =>
        forall i | 0 <= i < |cells| ensures var after := PurgedLabelCell(fold, cells[i], wd);
          && after.account == cells[i].account
          && (if cells[i].account == wd.repo.account
              then ListingPurged(cells[i].listing, after.listing, NotAbout(fold, wd.repo.name))
              else after == cells[i]) {
          LabelsPurged(fold, cells[i], wd);
        }
      case SliceColumn(_, surfaces) =>
        if wd.repo.account in surfaces {
          PurgedListingIs(surfaces[wd.repo.account], (item: Item) => InRemovedSlice(item, wd), NotIn(wd.slices));
        }
      case _ =>
    }
  }

  /** The purge cannot be done exactly when the corpus loses a slice and the owner's mirror has an item whose layer is
      an array or an object; then nothing at all changes, and otherwise every store is purged and the consent
      recorded. */
  lemma ConsentChangeIs(fold: Fold, w: ConsentRuns.World, id: string, consent: Consent)
    requires id in w.repos && forall i :: 0 <= i < |w.stores| ==> WellTargeted(w.stores[i])
    ensures var repo, v := w.repos[id], ConsentRuns.Next(fold, w, ConsentRuns.ChangeConsent(id, consent));
      var wd := WithdrawalOf(repo, consent);
      if wd.slices != {} && exists i, k :: 0 <= i < |w.stores| && IsRotten(w.stores[i], repo.account, k) then v == w
      else
        && v.repos == w.repos[id := repo.(consent := consent)] && |v.stores| == |w.stores|
        && forall i :: 0 <= i < |w.stores| ==>
             StorePurged(fold, w.stores[i], v.stores[i], repo, wd.lanes, wd.slices)
  {
    var repo := w.repos[id];
    var wd := WithdrawalOf(repo, consent);
    forall i | 0 <= i < |w.stores|
      ensures StorePurged(fold, w.stores[i], PurgedStore(fold, w.stores[i], wd), repo, wd.lanes, wd.slices)
      ensures PurgeFails(w.stores[i], wd) <==> wd.slices != {} && exists k :: IsRotten(w.stores[i], repo.account, k) {
      PurgeIs(fold, w.stores[i], wd);
      RottenIs(w.stores[i], wd);
    }
  }

  /** The k-th item of the account's corpus mirror has a layer that is no string. */
  predicate IsRotten(store: Store, account: string, k: nat) {
    && store.SliceColumn? && account in store.surfaces && store.surfaces[account].Items?
    && k < |store.surfaces[account].items| && store.surfaces[account].items[k].layer.Nested?
  }

  lemma RottenIs(store: Store, wd: Withdrawal)
    requires WellTargeted(store)
    ensures PurgeFails(store, wd) <==> wd.slices != {} && exists k :: IsRotten(store, wd.repo.account, k)
  {
    if PurgeFails(store, wd) {
      var items := store.surfaces[wd.repo.account].items;
      var k :| 0 <= k < |items| && items[k].layer.Nested?;
      assert IsRotten(store, wd.repo.account, k);
    }
  }

  // ---------------------------------------------------------------- what a publish stores


  ghost function PassesFrom(fold: Fold, repos: map<string, Repo>, account: string, publisher: Option<string>,
                            lane: string): Item -> bool {
    (item: Item) => SubjectPermits(fold, repos, account, item.subject, publisher, lane)
  }

  lemma PermittedAreFiltered(fold: Fold, repos: map<string, Repo>, account: string, items: seq<Item>,
                             publisher: Option<string>, lane: string)
    ensures Filters(items, ConsentRuns.PermittedItems(fold, repos, account, items, publisher, lane),
                    PassesFrom(fold, repos, account, publisher, lane))
  {
    WithoutFilters(items, (item: Item) => !SubjectPermits(fold, repos, account, item.subject, publisher, lane),
                   PassesFrom(fold, repos, account, publisher, lane));
  }

  /** A publish about labels replaces the account's listing by all and only the rows that pass, in order. */
  lemma ItemsPublished(fold: Fold, w: ConsentRuns.World, at: nat, k: nat, items: seq<Item>, publisher: Option<string>)
    returns (left: seq<Item>)
    requires at < |w.stores| && w.stores[at].LabelColumn? && k < |w.stores[at].labelled|
    ensures var cells, lane := w.stores[at].labelled, w.stores[at].lane;
      && Filters(items, left, PassesFrom(fold, w.repos, cells[k].account, publisher, lane))
      && ConsentRuns.Next(fold, w, ConsentRuns.PublishItems(at, k, items, publisher)) ==
           w.(stores := w.stores[at := LabelColumn(lane, cells[k := LabelCell(cells[k].account, Items(left))])])
  {
    var account, lane := w.stores[at].labelled[k].account, w.stores[at].lane;
    left := ConsentRuns.PermittedItems(fold, w.repos, account, items, publisher, lane);
    PermittedAreFiltered(fold, w.repos, account, items, publisher, lane);
  }

  ghost predicate Ships(repos: map<string, Repo>, account: string, layer: Layer) {
    layer.Named? && forall id :: id in repos && repos[id].account == account ==>
      layer.name in RepoScopes(repos[id].consent).slices
  }

  ghost function ShipsFrom(repos: map<string, Repo>, account: string): Item -> bool {
    (item: Item) => Ships(repos, account, item.layer)
  }

  /** A file of the corpus is stored if it names a layer that every repo of the account permits. */
  lemma FilesPublished(fold: Fold, w: ConsentRuns.World, at: nat, account: string, items: seq<Item>)
    returns (left: seq<Item>)
    requires at < |w.stores| && w.stores[at].SliceColumn?
    ensures Filters(items, left, ShipsFrom(w.repos, account))
    ensures ConsentRuns.Next(fold, w, ConsentRuns.PublishFiles(at, account, items)) ==
      w.(stores := w.stores[at := SliceColumn(w.stores[at].lane, w.stores[at].surfaces[account := Items(left)])])
  {
    left := ConsentRuns.PermittedFiles(w.repos, account, items);
    FilesAreFiltered(w.repos, account, items);
    FilesStored(fold, w, at, account, items);
  }

  lemma FilesStored(fold: Fold, w: ConsentRuns.World, at: nat, account: string, items: seq<Item>)
    requires at < |w.stores| && w.stores[at].SliceColumn?
    ensures ConsentRuns.Next(fold, w, ConsentRuns.PublishFiles(at, account, items)) ==
      w.(stores := w.stores[at := SliceColumn(w.stores[at].lane, w.stores[at].surfaces[
           account := Items(ConsentRuns.PermittedFiles(w.repos, account, items))])])
  {
  }

  lemma FilesAreFiltered(repos: map<string, Repo>, account: string, items: seq<Item>)
    ensures Filters(items, ConsentRuns.PermittedFiles(repos, account, items), ShipsFrom(repos, account))
  {
    forall item: Item
      ensures ShipsFrom(repos, account)(item) <==> !ConsentRuns.LayerWithheld(repos, account, item.layer) {
      ShipsIff(repos, account, item.layer);
    }
    WithoutFilters(items, (item: Item) => ConsentRuns.LayerWithheld(repos, account, item.layer),
                   ShipsFrom(repos, account));
  }

  lemma ShipsIff(repos: map<string, Repo>, account: string, layer: Layer)
    ensures Ships(repos, account, layer) <==> !ConsentRuns.LayerWithheld(repos, account, layer)
  {
  }

  /** A base is stored if its label is not empty and passes. */
  lemma BasesPublished(fold: Fold, w: ConsentRuns.World, at: nat, account: string, bases: map<string, string>,
                       publisher: Option<string>)
    requires at < |w.stores| && w.stores[at].BaseColumn?
    ensures var v := ConsentRuns.Next(fold, w, ConsentRuns.PublishBases(at, account, bases, publisher));
      exists left: map<string, string> ::
        && (forall key :: key in left <==>
              key in bases && key != "" && SubjectPermits(fold, w.repos, account, Some(key), publisher, "corpus"))
        && (forall key :: key in left ==> left[key] == bases[key])
        && v == w.(stores := w.stores[at :=
                     BaseColumn(w.stores[at].lane, w.stores[at].basings[account := Bases(left)])])
  {
    var left := ConsentRuns.PermittedBases(fold, w.repos, account, bases, publisher);
    assert forall key :: key in left ==> left[key] == bases[key];
    assert ConsentRuns.Next(fold, w, ConsentRuns.PublishBases(at, account, bases, publisher)) ==
      w.(stores := w.stores[at := BaseColumn(w.stores[at].lane, w.stores[at].basings[account := Bases(left)])]);
  }

  /** A daemon's own column takes the value if its repo permits the lane, or is not connected, and is reset if not; a
      row is added or refused alike. */
  lemma ValuePublished(fold: Fold, w: ConsentRuns.World, at: nat, k: nat, value: Option<string>, row: RepoRow)
    requires at < |w.stores|
    ensures var v := ConsentRuns.Next(fold, w, ConsentRuns.PublishCell(at, k, value));
      w.stores[at].RepoColumn? && k < |w.stores[at].cells| ==>
        var id := w.stores[at].cells[k].repo;
        var permitted := id in w.repos ==> w.stores[at].lane in RepoScopes(w.repos[id].consent).lanes;
        v == w.(stores := w.stores[at := w.stores[at].(cells := w.stores[at].cells[k :=
               RepoCell(id, if permitted then value else w.stores[at].reset)])])
    ensures var v := ConsentRuns.Next(fold, w, ConsentRuns.PublishRow(at, row));
      w.stores[at].RowStore? ==>
        var permitted := row.repo in w.repos ==> w.stores[at].lane in RepoScopes(w.repos[row.repo].consent).lanes;
        v == if permitted then w.(stores := w.stores[at := w.stores[at].(rows := w.stores[at].rows + [row])]) else w
  {
    assert w.stores[at := w.stores[at]] == w.stores;
  }
}
