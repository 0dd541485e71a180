// `purge_removed_scope` and `permitted_rows` as they loop over the stored mirrors.
module ConsentStore {
  import opened Wrappers
  import opened PublishScope
  import Text
  import ConsentRuns

  /** Whether the purge writes the account's corpus mirror, and so stamps its surface time. */
  predicate WritesSurface(fold: Fold, store: Store, wd: Withdrawal) {
    match store
    case SliceColumn(lane, surfaces) =>
      && lane == CORPUS && lane in AffectedLanes(wd) && wd.slices != {} && wd.repo.account in surfaces
      && PurgedListing(surfaces[wd.repo.account], (item: Item) => InRemovedSlice(item, wd)) != surfaces[wd.repo.account]
    case BaseColumn(lane, basings) =>
      && lane == CORPUS && lane in AffectedLanes(wd) && CORPUS in wd.lanes && wd.repo.account in basings
      && PurgedBasing(fold, basings[wd.repo.account], wd) != basings[wd.repo.account]
    case _ => false
  }

  class Mirror {
    const fold: Fold
    var repos: map<string, Repo>
    var stores: seq<Store>
    /** `surface_updated_at` of each account. */
    var stamps: map<string, int>

    constructor (fold: Fold, repos: map<string, Repo>, stores: seq<Store>, stamps: map<string, int>)
      ensures this.fold == fold && this.repos == repos && this.stores == stores && this.stamps == stamps
    {
      this.fold, this.repos, this.stores, this.stamps := fold, repos, stores, stamps;
    }

    method ResetCells(cells: seq<RepoCell>, reset: Option<string>, wd: Withdrawal) returns (done: seq<RepoCell>)
      ensures |done| == |cells| && forall i :: 0 <= i < |cells| ==> done[i] == PurgedCell(cells[i], reset, wd)
    {
      done := cells;
      var i := 0;
      while i < |cells|
        invariant 0 <= i <= |cells| == |done|
        invariant forall k ::
          0 <= k < |cells| ==> done[k] == if k < i then PurgedCell(cells[k], reset, wd) else cells[k]
      {
        if done[i].repo == wd.repo.id { done := done[i := done[i].(value := reset)]; }
        i := i + 1;
      }
    }

    method FilterCells(cells: seq<LabelCell>, wd: Withdrawal) returns (done: seq<LabelCell>)
      ensures |done| == |cells| && forall i :: 0 <= i < |cells| ==> done[i] == PurgedLabelCell(fold, cells[i], wd)
    {
      done := cells;
      var i := 0;
      while i < |cells|
        invariant 0 <= i <= |cells| == |done|
        invariant forall k ::
          0 <= k < |cells| ==> done[k] == if k < i then PurgedLabelCell(fold, cells[k], wd) else cells[k]
      {
        if cells[i].account == wd.repo.account {
          match cells[i].listing
          case NoText =>
          case Broken => done := done[i := cells[i].(listing := Items([]))];
          case Items(items) =>
            done := done[i :=
                         cells[i].(listing :=
                                   Items(WithoutItems(items, (item: Item) => Labelled(fold, item.subject, wd))))];
        }
        i := i + 1;
      }
    }

    /** The filter on layers, which looks each one up; None when a lookup raises. */
    method FilterLayers(items: seq<Item>, wd: Withdrawal) returns (kept: Option<seq<Item>>)
      ensures kept == None <==> HasNested(items)
      ensures kept.Some? ==> kept.value == WithoutItems(items, (item: Item) => InRemovedSlice(item, wd))
    {
      var i := 0;
      while i < |items|
        invariant 0 <= i <= |items|
        invariant forall k :: 0 <= k < i ==> !items[k].layer.Nested?
      {
        if items[i].layer.Nested? { return None; }
        i := i + 1;
      }
      return Some(WithoutItems(items, (item: Item) => InRemovedSlice(item, wd)));
    }

    /** The corpus mirror of one account. */
    method PurgeSurface(surfaces: map<string, Listing>, lane: string, wd: Withdrawal)
      returns (done: Store, wrote: bool, raised: bool)
      requires lane in AffectedLanes(wd)
      ensures raised == PurgeFails(SliceColumn(lane, surfaces), wd)
      ensures !raised ==> done == PurgedStore(fold, SliceColumn(lane, surfaces), wd)
      ensures !raised ==> wrote == WritesSurface(fold, SliceColumn(lane, surfaces), wd)
    {
      if lane != CORPUS || wd.slices == {}
        || wd.repo.account !in surfaces { return SliceColumn(lane, surfaces), false, false; }
      var kept := Items([]);
      match surfaces[wd.repo.account] {
        case NoText => kept := NoText;
        case Broken =>
        case Items(items) =>
          var filtered := FilterLayers(items, wd);
          if filtered == None { return SliceColumn(lane, surfaces), false, true; }
          kept := Items(filtered.value);
      }
      return SliceColumn(lane, surfaces[wd.repo.account := kept]), kept != surfaces[wd.repo.account], false;
    }

    /** One target of the loop; `wrote` is the surface-changed flag. */
    method PurgeTarget(store: Store, wd: Withdrawal) returns (done: Store, wrote: bool, raised: bool)
      requires store.lane in AffectedLanes(wd)
      ensures raised == PurgeFails(store, wd)
      ensures !raised ==> done == PurgedStore(fold, store, wd) && wrote == WritesSurface(fold, store, wd)
    {
      raised := false;
      match store
      case RowStore(lane, rows) => return RowStore(lane, WithoutRows(rows, wd.repo.id)), false, false;
      case RepoColumn(lane, cells, reset) =>
        var kept := ResetCells(cells, reset, wd);
        assert kept == seq(|cells|, i requires 0 <= i < |cells| => PurgedCell(cells[i], reset, wd));
        return RepoColumn(lane, kept, reset), false, false;
      case LabelColumn(lane, cells) =>
        var kept := FilterCells(cells, wd);
        assert kept == seq(|cells|, i requires 0 <= i < |cells| => PurgedLabelCell(fold, cells[i], wd));
        return LabelColumn(lane, kept), false, false;
      case SliceColumn(lane, surfaces) =>
        done, wrote, raised := PurgeSurface(surfaces, lane, wd);
      case BaseColumn(lane, basings) =>
        if lane != CORPUS || CORPUS !in wd.lanes || wd.repo.account !in basings { return store, false, false; }
        var kept := PurgedBasing(fold, basings[wd.repo.account], wd);
        return BaseColumn(lane, basings[wd.repo.account := kept]), kept != basings[wd.repo.account], false;
    }

    /** The account's surface time is now if the purge wrote its corpus mirror; no other time moves. */
    ghost predicate Stamped(before: seq<Store>, wd: Withdrawal, was: map<string, int>, now: int)
      reads this
    {
      stamps ==
        if wd.repo.account in was && exists i :: 0 <= i < |before| && WritesSurface(fold, before[i], wd)
        then was[wd.repo.account := now] else was
    }

    /** `purge_removed_scope`: every store as the purge specifies, the surface time stamped exactly when the corpus
        mirror was written. It raises exactly when some affected mirror holds a nested layer; the caller's
        transaction then rolls back. */
    method PurgeRemovedScope(repo: Repo, consent: Consent, now: int)
      returns (lanes: set<string>, slices: set<string>, raised: bool)
      modifies this`stores, this`stamps
      ensures lanes == WithdrawalOf(repo, consent).lanes && slices == WithdrawalOf(repo, consent).slices
      ensures raised == ConsentRuns.WithdrawalFails(old(stores), WithdrawalOf(repo, consent))
      ensures raised ==> stores == old(stores) && stamps == old(stamps)
      ensures !raised ==> stores == ConsentRuns.PurgedStores(fold, old(stores), WithdrawalOf(repo, consent))
      ensures !raised ==> Stamped(old(stores), WithdrawalOf(repo, consent), old(stamps), now)
    {
      var wd, saved := WithdrawalOf(repo, consent), stores;
      lanes, slices, raised := wd.lanes, wd.slices, false;
      var i, surfaceChanged := 0, false;
      while i < |stores|
        invariant 0 <= i <= |stores| == |old(stores)|
        invariant forall k ::
          0 <= k < |stores| ==> stores[k] == if k < i then PurgedStore(fold, old(stores)[k], wd) else old(stores)[k]
        invariant forall k :: 0 <= k < i ==> !PurgeFails(old(stores)[k], wd)
        invariant surfaceChanged <==> exists k :: 0 <= k < i && WritesSurface(fold, old(stores)[k], wd)
        invariant stamps == old(stamps)
      {
        if stores[i].lane in AffectedLanes(wd) {
          var done, wrote, failed := PurgeTarget(stores[i], wd);
          if failed {
            stores := saved;
            return lanes, slices, true;
          }
          stores := stores[i := done];
          surfaceChanged := surfaceChanged || wrote;
        }
        i := i + 1;
      }
      if surfaceChanged && repo.account in stamps {
        stamps := stamps[repo.account := now];
      }
    }

    /** The callers' transaction: purge, then record the consent; a purge that raises records nothing. */
    method ChangeConsent(id: string, consent: Consent, now: int) returns (raised: bool)
      requires id in repos
      modifies this`stores, this`stamps, this`repos
      ensures ConsentRuns.World(repos, stores) ==
        ConsentRuns.Next(fold, ConsentRuns.World(old(repos), old(stores)), ConsentRuns.ChangeConsent(id, consent))
      ensures raised ==> repos == old(repos)
    {
      var lanes, slices: set<string>;
      lanes, slices, raised := PurgeRemovedScope(repos[id], consent, now);
      if !raised { repos := repos[id := repos[id].(consent := consent)]; }
    }

    /** `_subject_permits`, over the account's repos. */
    method JudgeSubject(candidates: seq<string>, account: string, named: string, publisher: Option<string>,
                        lane: string) returns (permits: bool)
      requires forall id :: id in candidates <==> id in repos && repos[id].account == account
      requires Text.Strip(named) == named
      ensures permits == SubjectPermits(fold, repos, account, Some(named), publisher, lane)
    {
      var matched := false;
      permits := true;
      var i := 0;
      while i < |candidates|
        invariant 0 <= i <= |candidates|
        invariant matched <==> exists k :: 0 <= k < i && IsSubject(fold, repos, account, Some(named), candidates[k])
        invariant permits <==> forall k :: 0 <= k < i && IsSubject(fold, repos, account, Some(named), candidates[k]) ==>
          lane in RepoScopes(repos[candidates[k]].consent).lanes
      {
        var repo := repos[candidates[i]];
        assert candidates[i] in candidates;
        if named != "" && fold(repo.name) == fold(named) {
          matched := true;
          permits := permits && lane in RepoScopes(repo.consent).lanes;
        }
        i := i + 1;
      }
      assert matched <==> exists id :: IsSubject(fold, repos, account, Some(named), id) by {
        if id :| IsSubject(fold, repos, account, Some(named), id) {
          var k :| 0 <= k < |candidates| && candidates[k] == id;
          assert IsSubject(fold, repos, account, Some(named), candidates[k]);
        }
      }
      if !matched {
        permits := publisher.Some? && publisher.value in repos ==>
          lane in RepoScopes(repos[publisher.value].consent).lanes;
      } else {
        assert permits <==>
          forall id :: IsSubject(fold, repos, account, Some(named), id) ==> lane in RepoScopes(repos[id].consent).lanes
        by {
          forall id | IsSubject(fold, repos, account, Some(named), id)
            ensures exists k :: 0 <= k < |candidates| && candidates[k] == id {
            assert id in candidates;
          }
        }
      }
    }

    ghost predicate Decided(decided: map<string, bool>, account: string, publisher: Option<string>, lane: string)
      reads this
    {
      forall named :: named in decided ==>
        && Text.Strip(named) == named
        && decided[named] == SubjectPermits(fold, repos, account, Some(named), publisher, lane)
    }

    /** One row of the loop: its label is looked up, or judged and remembered. */
    method JudgeRow(decided: map<string, bool>, row: Item, candidates: seq<string>, account: string,
                    publisher: Option<string>, lane: string)
      returns (permits: bool, more: map<string, bool>)
      requires forall id :: id in candidates <==> id in repos && repos[id].account == account
      requires Decided(decided, account, publisher, lane)
      ensures permits == SubjectPermits(fold, repos, account, row.subject, publisher, lane)
      ensures Decided(more, account, publisher, lane)
    {
      var named := Text.Strip(row.subject.GetOr(""));
      StripTwice(row.subject.GetOr(""));
      SameSubject(fold, repos, account, row.subject, publisher, lane);
      more := decided;
      if named !in more {
        permits := JudgeSubject(candidates, account, named, publisher, lane);
        more := more[named := permits];
      }
      permits := more[named];
    }

    /** `permitted_rows`: each distinct label is decided once, and that changes nothing. */
    method PermittedRows(rows: seq<Item>, candidates: seq<string>, account: string, publisher: Option<string>,
                         lane: string) returns (kept: seq<Item>)
      requires forall id :: id in candidates <==> id in repos && repos[id].account == account
      ensures kept == ConsentRuns.PermittedItems(fold, repos, account, rows, publisher, lane)
    {
      var decided: map<string, bool> := map[];
      kept := [];
      var i := 0;
      while i < |rows|
        invariant 0 <= i <= |rows|
        invariant Decided(decided, account, publisher, lane)
        invariant kept + AllowedFrom(fold, repos, account, rows, i, publisher, lane) ==
          AllowedFrom(fold, repos, account, rows, 0, publisher, lane)
      {
        var permits, more := JudgeRow(decided, rows[i], candidates, account, publisher, lane);
        decided := more;
        ghost var passing := if permits then [rows[i]] else [];
        Regroup(kept, passing, AllowedFrom(fold, repos, account, rows, i + 1, publisher, lane));
        if permits {
          kept := kept + [rows[i]];
        } else {
          assert kept + passing == kept;
        }
        i := i + 1;
      }
      AllowedIsPermitted(fold, repos, account, rows, 0, publisher, lane);
      assert rows[0..] == rows;
    }
  }

  lemma {:induction false} StripTwice(s: string)
    ensures Text.Strip(Text.Strip(s)) == Text.Strip(s)
    decreases |s|
  {
    if s != "" {
      if Text.IsSpace(s[0]) { StripTwice(s[1..]); }
      else if Text.IsSpace(s[|s| - 1]) { StripTwice(s[..|s| - 1]); }
    }
  }

  lemma Regroup(a: seq<Item>, b: seq<Item>, c: seq<Item>)
    ensures (a + b) + c == a + (b + c)
  {
  }

  /** The rows the gate lets through, from the `i`th on. */
  ghost function AllowedFrom(fold: Fold, repos: map<string, Repo>, account: string, rows: seq<Item>, i: nat,
                             publisher: Option<string>, lane: string): seq<Item>
    requires i <= |rows|
    decreases |rows| - i
  {
    if i == |rows| then []
    else
      (if SubjectPermits(fold, repos, account, rows[i].subject, publisher, lane) then [rows[i]] else [])
        + AllowedFrom(fold, repos, account, rows, i + 1, publisher, lane)
  }

  lemma {:induction false} AllowedIsPermitted(fold: Fold, repos: map<string, Repo>, account: string, rows: seq<Item>,
                                              i: nat, publisher: Option<string>, lane: string)
    requires i <= |rows|
    ensures AllowedFrom(fold, repos, account, rows, i, publisher, lane) ==
      ConsentRuns.PermittedItems(fold, repos, account, rows[i..], publisher, lane)
    decreases |rows| - i
  {
    if i < |rows| {
      AllowedIsPermitted(fold, repos, account, rows, i + 1, publisher, lane);
      assert rows[i..][0] == rows[i] && rows[i..][1..] == rows[i + 1..];
    }
  }

  /** Rows are judged on the stripped label, a missing one as blank. */
  lemma SameSubject(fold: Fold, repos: map<string, Repo>, account: string, subject: Option<string>,
                    publisher: Option<string>, lane: string)
    ensures SubjectPermits(fold, repos, account, subject, publisher, lane)
         == SubjectPermits(fold, repos, account, Some(Text.Strip(subject.GetOr(""))), publisher, lane)
  {
    var named := Some(Text.Strip(subject.GetOr("")));
    StripTwice(subject.GetOr(""));
    assert forall id :: IsSubject(fold, repos, account, subject, id) <==> IsSubject(fold, repos, account, named, id);
  }
}
