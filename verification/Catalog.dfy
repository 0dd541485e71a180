// The capability catalog: structural validation and the depth-first topological sort of its
// requires graph.
module Catalog {
  import opened Wrappers

  datatype Scope = AccountScope | MachineScope | RepoScope
  datatype Heat = Required | Recommended | Optional

  /** One catalog entry; `needs` is its `requires` tuple. */
  datatype Def = Def(id: string, scope: Scope, heat: Heat, needs: seq<string>)

  datatype Verdict =
    | Valid(order: seq<string>)
    | DuplicateId(id: string)
    | UnknownRequirement(id: string, dep: string)
    | OptionalRequirement(id: string, dep: string)
    | ForeignScope(id: string, dep: string)
    | RequiresCycle(cycle: seq<string>)

  // ---------------------------------------------------------------- the graph

  ghost predicate Closed(byId: map<string, Def>) {
    forall id, dep :: id in byId && dep in byId[id].needs ==> dep in byId
  }

  predicate Edge(byId: map<string, Def>, from: string, to: string) {
    from in byId && to in byId[from].needs
  }

  ghost predicate IsPath(byId: map<string, Def>, path: seq<string>) {
    forall i, j :: 0 <= i < j < |path| && j == i + 1 ==> Edge(byId, path[i], path[j])
  }

  /** A genuine cycle, written the way the error message does: first and last node the same. */
  ghost predicate IsCycle(byId: map<string, Def>, cycle: seq<string>) {
    |cycle| >= 2 && cycle[0] == cycle[|cycle| - 1] && IsPath(byId, cycle)
  }

  ghost predicate Acyclic(byId: map<string, Def>) {
    forall cycle :: !IsCycle(byId, cycle)
  }

  ghost predicate NoRepeats(ids: seq<string>) {
    |ids| > 0 ==> ids[|ids| - 1] !in ids[..|ids| - 1] && NoRepeats(ids[..|ids| - 1])
  }

  lemma {:induction false} NoRepeatsMeansDistinct(ids: seq<string>)
    ensures NoRepeats(ids) <==> forall i, j :: 0 <= i < j < |ids| ==> ids[i] != ids[j]
  {
    if |ids| > 0 {
      var n := |ids| - 1;
      var init := ids[..n];
      NoRepeatsMeansDistinct(init);
      assert forall i :: 0 <= i < n ==> init[i] == ids[i];
    }
  }

  /** Every dependency stands before its dependents. */
  ghost predicate DepsFirst(byId: map<string, Def>, order: seq<string>) {
    forall i, dep :: 0 <= i < |order| && Edge(byId, order[i], dep) ==> dep in order[..i]
  }

  // ---------------------------------------------------------------- order and cycles exclude each other

  function IndexOf(order: seq<string>, id: string): (i: nat)
    requires id in order
    ensures i < |order| && order[i] == id
    ensures id !in order[..i]
  {
    if order[0] == id then 0
    else
      assert order == [order[0]] + order[1..];
      var j := IndexOf(order[1..], id);
      assert order[..j + 1] == [order[0]] + order[1..][..j];
      j + 1
  }

  lemma EdgeDescends(byId: map<string, Def>, order: seq<string>, from: string, to: string)
    requires DepsFirst(byId, order) && from in order && Edge(byId, from, to)
    ensures to in order && IndexOf(order, to) < IndexOf(order, from)
  {
    var i := IndexOf(order, from);
    assert order[i] == from;
    assert to in order[..i];
    assert order == order[..i] + order[i..];
    FirstInPrefix(order, i, to);
  }

  lemma FirstInPrefix(order: seq<string>, i: nat, id: string)
    requires i <= |order| && id in order[..i]
    ensures id in order && IndexOf(order, id) < i
  {
    var j :| 0 <= j < i && order[..i][j] == id;
    assert order[j] == id;
    var first := IndexOf(order, id);
    assert forall k :: 0 <= k < first ==> order[..first][k] == order[k];
  }

  lemma {:induction false} PathDescends(byId: map<string, Def>, order: seq<string>, path: seq<string>, k: nat)
    requires DepsFirst(byId, order) && IsPath(byId, path) && k < |path| && path[0] in order
    ensures path[k] in order && IndexOf(order, path[k]) + k <= IndexOf(order, path[0])
  {
    if k > 0 {
      PathDescends(byId, order, path, k - 1);
      assert Edge(byId, path[k - 1], path[k]);
      EdgeDescends(byId, order, path[k - 1], path[k]);
    }
  }

  /** A complete dependency order is a proof that the graph has no cycle. */
  lemma OrderExcludesCycles(byId: map<string, Def>, order: seq<string>)
    requires DepsFirst(byId, order)
    requires forall id :: id in byId ==> id in order
    ensures Acyclic(byId)
  {
    forall cycle ensures !IsCycle(byId, cycle) {
      if IsCycle(byId, cycle) {
        assert Edge(byId, cycle[0], cycle[1]);
        PathDescends(byId, order, cycle, |cycle| - 1);
      }
    }
  }

  // ---------------------------------------------------------------- what validation demands

  ghost predicate DistinctIds(catalog: seq<Def>) {
    forall i, j :: 0 <= i < j < |catalog| ==> catalog[i].id != catalog[j].id
  }

  function ById(catalog: seq<Def>): map<string, Def> {
    if catalog == [] then map[]
    else ById(catalog[..|catalog| - 1])[catalog[|catalog| - 1].id := catalog[|catalog| - 1]]
  }

  lemma {:induction false} ByIdKeys(catalog: seq<Def>)
    ensures forall id :: id in ById(catalog) <==> exists i :: 0 <= i < |catalog| && catalog[i].id == id
  {
    if catalog != [] {
      var n := |catalog| - 1;
      var init := catalog[..n];
      ByIdKeys(init);
      assert forall i :: 0 <= i < n ==> catalog[i] == init[i];
      forall i | 0 <= i < |catalog| ensures catalog[i].id in ById(catalog) {
        if i < n { assert init[i].id in ById(init); }
      }
      forall id | id in ById(catalog) ensures exists i :: 0 <= i < |catalog| && catalog[i].id == id {
        if id == catalog[n].id {
        } else {
          assert id in ById(init);
          var i :| 0 <= i < n && init[i].id == id;
          assert catalog[i].id == id;
        }
      }
    }
  }

  lemma {:induction false} ByIdFinds(catalog: seq<Def>)
    requires DistinctIds(catalog)
    ensures forall i ::
      0 <= i < |catalog| ==> catalog[i].id in ById(catalog) && ById(catalog)[catalog[i].id] == catalog[i]
  {
    if catalog != [] {
      var n := |catalog| - 1;
      ByIdFinds(catalog[..n]);
      forall i | 0 <= i < n ensures catalog[i].id in ById(catalog) && ById(catalog)[catalog[i].id] == catalog[i] {
        assert catalog[..n][i] == catalog[i];
      }
    }
  }

  /** A requirement is known, never optional, and in account scope or the requirer's own. */
  predicate GoodRequirement(byId: map<string, Def>, def: Def, dep: string) {
    dep in byId && byId[dep].heat != Optional && (byId[dep].scope == AccountScope || byId[dep].scope == def.scope)
  }

  ghost predicate GoodRequirements(catalog: seq<Def>) {
    forall i, dep :: 0 <= i < |catalog| && dep in catalog[i].needs ==> GoodRequirement(ById(catalog), catalog[i], dep)
  }

  ghost predicate WellFormed(catalog: seq<Def>) {
    DistinctIds(catalog) && GoodRequirements(catalog)
  }

  lemma GoodRequirementsClose(catalog: seq<Def>)
    requires WellFormed(catalog)
    ensures Closed(ById(catalog))
  {
    ByIdKeys(catalog);
    ByIdFinds(catalog);
    var byId := ById(catalog);
    forall id, dep | id in byId && dep in byId[id].needs ensures dep in byId {
      var i :| 0 <= i < |catalog| && catalog[i].id == id;
      assert byId[catalog[i].id] == catalog[i];
    }
  }

  // ---------------------------------------------------------------- the sort

  const UNVISITED := 0
  const VISITING := 1
  const DONE := 2

  ghost function Elements(ids: seq<string>): set<string> {
    set id | id in ids
  }

  ghost function Marked(visitState: map<string, int>, mark: int): set<string> {
    set id | id in visitState && visitState[id] == mark
  }

  /** What holds whenever `visit` is called: the order so far is a dependency order without
      repeats of exactly the finished ids. An absent id is unvisited. */
  ghost predicate SortState(byId: map<string, Def>, visitState: map<string, int>, order: seq<string>) {
    && visitState.Keys <= byId.Keys
    && visitState.Keys == Marked(visitState, VISITING) + Marked(visitState, DONE)
    && Elements(order) == Marked(visitState, DONE)
    && NoRepeats(order)
    && DepsFirst(byId, order)
  }

  /** The visiting set is exactly the current path. */
  ghost predicate OnPath(byId: map<string, Def>, visitState: map<string, int>, path: seq<string>) {
    && Elements(path) == Marked(visitState, VISITING)
    && NoRepeats(path)
    && IsPath(byId, path)
  }

  ghost predicate Continues(byId: map<string, Def>, path: seq<string>, id: string) {
    path != [] ==> Edge(byId, path[|path| - 1], id)
  }

  lemma MarkedVisiting(visitState: map<string, int>, cid: string)
    requires cid !in visitState
    ensures Marked(visitState[cid := VISITING], VISITING) == Marked(visitState, VISITING) + {cid}
    ensures Marked(visitState[cid := VISITING], DONE) == Marked(visitState, DONE)
  {
  }

  lemma PathGrows(byId: map<string, Def>, path: seq<string>, cid: string)
    requires IsPath(byId, path) && Continues(byId, path, cid)
    ensures IsPath(byId, path + [cid])
  {
  }

  lemma Enter(byId: map<string, Def>, visitState: map<string, int>, order: seq<string>, path: seq<string>, cid: string)
    requires SortState(byId, visitState, order) && OnPath(byId, visitState, path)
    requires cid in byId && cid !in visitState && Continues(byId, path, cid)
    ensures SortState(byId, visitState[cid := VISITING], order)
    ensures OnPath(byId, visitState[cid := VISITING], path + [cid])
    ensures Marked(visitState[cid := VISITING], DONE) == Marked(visitState, DONE)
  {
    MarkedVisiting(visitState, cid);
    Extended(path, cid);
    PathGrows(byId, path, cid);
    assert cid !in Elements(path);
  }

  lemma MarkedDone(visitState: map<string, int>, cid: string)
    requires cid in visitState && visitState[cid] == VISITING
    ensures Marked(visitState[cid := DONE], DONE) == Marked(visitState, DONE) + {cid}
    ensures Marked(visitState[cid := DONE], VISITING) == Marked(visitState, VISITING) - {cid}
    ensures visitState[cid := DONE].Keys == visitState.Keys
  {
  }

  lemma LeaveOrder(byId: map<string, Def>, visitState: map<string, int>, order: seq<string>, cid: string)
    requires SortState(byId, visitState, order) && cid in visitState && visitState[cid] == VISITING
    requires cid in byId && Elements(byId[cid].needs) <= Marked(visitState, DONE)
    ensures SortState(byId, visitState[cid := DONE], order + [cid])
  {
    MarkedDone(visitState, cid);
    Extended(order, cid);
    assert cid !in Elements(order);
    assert forall dep :: dep in byId[cid].needs ==> dep in Elements(order);
    DepsFirstExtends(byId, order, cid);
  }

  lemma Leave(byId: map<string, Def>, visitState: map<string, int>, order: seq<string>, path: seq<string>, cid: string)
    requires SortState(byId, visitState, order) && OnPath(byId, visitState, path + [cid])
    requires cid in byId && Elements(byId[cid].needs) <= Marked(visitState, DONE)
    ensures SortState(byId, visitState[cid := DONE], order + [cid])
    ensures OnPath(byId, visitState[cid := DONE], path)
    ensures Marked(visitState[cid := DONE], DONE) == Marked(visitState, DONE) + {cid}
  {
    Extended(path, cid);
    assert cid in Elements(path + [cid]);
    MarkedDone(visitState, cid);
    LeaveOrder(byId, visitState, order, cid);
    PathShrinks(byId, path, cid);
  }

  lemma Extended(ids: seq<string>, id: string)
    ensures Elements(ids + [id]) == Elements(ids) + {id}
    ensures NoRepeats(ids + [id]) <==> NoRepeats(ids) && id !in ids
  {
    assert (ids + [id])[..|ids|] == ids;
  }

  lemma PathShrinks(byId: map<string, Def>, path: seq<string>, cid: string)
    requires IsPath(byId, path + [cid])
    ensures IsPath(byId, path)
  {
    assert forall i :: 0 <= i < |path| ==> (path + [cid])[i] == path[i];
  }

  lemma DepsFirstExtends(byId: map<string, Def>, order: seq<string>, cid: string)
    requires DepsFirst(byId, order)
    requires cid in byId && forall dep :: dep in byId[cid].needs ==> dep in order
    ensures DepsFirst(byId, order + [cid])
  {
    var longer := order + [cid];
    forall i, dep | 0 <= i < |longer| && Edge(byId, longer[i], dep) ensures dep in longer[..i] {
      if i < |order| {
        assert longer[..i] == order[..i];
        assert Edge(byId, order[i], dep);
      } else {
        assert longer[..i] == order;
      }
    }
  }

  function CycleAt(path: seq<string>, cid: string): seq<string>
    requires cid in path
  {
    path[IndexOf(path, cid)..] + [cid]
  }

  lemma Closing(byId: map<string, Def>, path: seq<string>, cid: string)
    requires IsPath(byId, path) && cid in path && Continues(byId, path, cid)
    ensures IsCycle(byId, CycleAt(path, cid))
  {
    var at, closing := IndexOf(path, cid), CycleAt(path, cid);
    forall i | 0 <= i < |closing| - 1 ensures Edge(byId, closing[i], closing[i + 1]) {
      if i < |closing| - 2 {
        assert Edge(byId, path[at + i], path[at + i + 1]);
      }
    }
  }

  /** `_topological_order`: the map and the list its closure mutates. */
  class Sorter {
    const byId: map<string, Def>
    var visitState: map<string, int>
    var order: seq<string>

    constructor (byId: map<string, Def>)
      ensures this.byId == byId && visitState == map[] && order == []
    {
      this.byId := byId;
      visitState, order := map[], [];
    }

    ghost predicate Valid()
      reads this
    {
      Closed(byId) && SortState(byId, visitState, order)
    }

    ghost function Finished(): set<string>
      reads this`visitState
    {
      Marked(visitState, DONE)
    }

    /** `visit`: None when the subtree of `cid` is in the order, else the cycle it ran into. */
    method Visit(cid: string, path: seq<string>) returns (cycle: Option<seq<string>>)
      requires Valid() && OnPath(byId, visitState, path)
      requires cid in byId && Continues(byId, path, cid)
      modifies this`visitState, this`order
      decreases byId.Keys - visitState.Keys, 1
      ensures old(visitState).Keys <= visitState.Keys
      ensures cycle == None ==> Valid() && OnPath(byId, visitState, path)
      ensures cycle == None ==> old(Finished()) + {cid} <= Finished()
      ensures cycle.Some? ==> IsCycle(byId, cycle.value)
    {
      var state := if cid in visitState then visitState[cid] else UNVISITED;
      if state == DONE { return None; }
      if state == VISITING {
        assert cid in Elements(path);
        Closing(byId, path, cid);
        return Some(CycleAt(path, cid));
      }
      cycle := VisitFirst(cid, path);
    }

    /** `visit` on a node met for the first time. */
    method VisitFirst(cid: string, path: seq<string>) returns (cycle: Option<seq<string>>)
      requires Valid() && OnPath(byId, visitState, path)
      requires cid in byId && cid !in visitState && Continues(byId, path, cid)
      modifies this`visitState, this`order
      decreases byId.Keys - visitState.Keys, 0
      ensures old(visitState).Keys <= visitState.Keys
      ensures cycle == None ==> Valid() && OnPath(byId, visitState, path)
      ensures cycle == None ==> old(Finished()) + {cid} <= Finished()
      ensures cycle.Some? ==> IsCycle(byId, cycle.value)
    {
      MarkVisiting(cid, path);
      cycle := VisitNeeds(cid, path + [cid]);
      if cycle.Some? { return; }
      MarkDone(cid, path);
    }

    method MarkVisiting(cid: string, ghost path: seq<string>)
      requires Valid() && OnPath(byId, visitState, path)
      requires cid in byId && cid !in visitState && Continues(byId, path, cid)
      modifies this`visitState
      ensures Valid() && OnPath(byId, visitState, path + [cid])
      ensures old(visitState).Keys <= visitState.Keys && cid in visitState && old(Finished()) <= Finished()
    {
      Enter(byId, visitState, order, path, cid);
      visitState := visitState[cid := VISITING];
    }

    method MarkDone(cid: string, ghost path: seq<string>)
      requires Valid() && OnPath(byId, visitState, path + [cid])
      requires cid in byId && Elements(byId[cid].needs) <= Finished()
      modifies this`visitState, this`order
      ensures Valid() && OnPath(byId, visitState, path)
      ensures old(visitState).Keys <= visitState.Keys && old(Finished()) <= Finished() && cid in Finished()
    {
      Leave(byId, visitState, order, path, cid);
      visitState := visitState[cid := DONE];
      order := order + [cid];
    }

    /** The loop in `visit`: every requirement of the node the path ends at. */
    method VisitNeeds(cid: string, path: seq<string>) returns (cycle: Option<seq<string>>)
      requires Valid() && OnPath(byId, visitState, path)
      requires cid in byId && path != [] && path[|path| - 1] == cid
      modifies this`visitState, this`order
      decreases byId.Keys - visitState.Keys, 2
      ensures old(visitState).Keys <= visitState.Keys
      ensures cycle == None ==> Valid() && OnPath(byId, visitState, path)
      ensures cycle == None ==> old(Finished()) + Elements(byId[cid].needs) <= Finished()
      ensures cycle.Some? ==> IsCycle(byId, cycle.value)
    {
      var needs := byId[cid].needs;
      var i := 0;
      while i < |needs|
        invariant 0 <= i <= |needs|
        invariant Valid() && OnPath(byId, visitState, path)
        invariant old(visitState).Keys <= visitState.Keys
        invariant old(Finished()) + Elements(needs[..i]) <= Finished()
      {
        assert Edge(byId, cid, needs[i]);
        cycle := Visit(needs[i], path);
        if cycle.Some? { return; }
        Extended(needs[..i], needs[i]);
        assert needs[..i] + [needs[i]] == needs[..i + 1];
        i := i + 1;
      }
      assert needs[..i] == needs;
      return None;
    }

    /** The outer loop: visit every entry of the catalog. */
    method Sort(catalog: seq<Def>) returns (cycle: Option<seq<string>>)
      requires Closed(byId) && visitState == map[] && order == []
      requires forall i :: 0 <= i < |catalog| ==> catalog[i].id in byId
      modifies this`visitState, this`order
      ensures cycle == None ==> NoRepeats(order) && DepsFirst(byId, order)
      ensures cycle == None ==> Elements(Ids(catalog)) <= Elements(order) <= byId.Keys
      ensures cycle.Some? ==> IsCycle(byId, cycle.value)
    {
      var i := 0;
      while i < |catalog|
        invariant 0 <= i <= |catalog|
        invariant Valid() && OnPath(byId, visitState, [])
        invariant forall j :: 0 <= j < i ==> catalog[j].id in Finished()
      {
        cycle := Visit(catalog[i].id, []);
        if cycle.Some? { return; }
        i := i + 1;
      }
      return None;
    }
  }

  // ---------------------------------------------------------------- validate_catalog

  /** The error is about this catalog: some entry and some requirement of it show it. */
  ghost predicate Justified(catalog: seq<Def>, verdict: Verdict) {
    var byId := ById(catalog);
    match verdict
    case Valid(order) =>
      NoRepeats(order) && DepsFirst(byId, order) && (forall id :: id in order <==> id in byId)
    case DuplicateId(id) =>
      exists i, j :: 0 <= i < j < |catalog| && catalog[i].id == id && catalog[j].id == id
    case UnknownRequirement(id, dep) =>
      DistinctIds(catalog) && Edge(byId, id, dep) && dep !in byId
    case OptionalRequirement(id, dep) =>
      DistinctIds(catalog) && Edge(byId, id, dep) && dep in byId && byId[dep].heat == Optional
    case ForeignScope(id, dep) =>
      && DistinctIds(catalog) && Edge(byId, id, dep) && dep in byId
      && byId[dep].scope != AccountScope && byId[dep].scope != byId[id].scope
    case RequiresCycle(cycle) =>
      WellFormed(catalog) && IsCycle(byId, cycle)
  }

  method IndexById(catalog: seq<Def>) returns (byId: map<string, Def>, duplicate: Option<string>)
    ensures duplicate == None ==> DistinctIds(catalog) && byId == ById(catalog)
    ensures duplicate.Some? ==> Justified(catalog, DuplicateId(duplicate.value))
  {
    byId := map[];
    var n := 0;
    while n < |catalog|
      invariant 0 <= n <= |catalog|
      invariant byId == ById(catalog[..n])
      invariant DistinctIds(catalog[..n])
    {
      ByIdKeys(catalog[..n]);
      if catalog[n].id in byId {
        ghost var i :| 0 <= i < n && catalog[..n][i].id == catalog[n].id;
        assert catalog[i].id == catalog[n].id;
        return byId, Some(catalog[n].id);
      }
      assert catalog[..n + 1][..n] == catalog[..n];
      assert DistinctIds(catalog[..n + 1]) by {
        assert forall i :: 0 <= i < n ==> catalog[..n][i].id in byId;
      }
      byId := byId[catalog[n].id := catalog[n]];
      n := n + 1;
    }
    assert catalog[..n] == catalog;
    return byId, None;
  }

  /** The first requirement, in catalog order, that breaks a rule. */
  method CheckRequirements(catalog: seq<Def>, byId: map<string, Def>) returns (error: Option<Verdict>)
    requires DistinctIds(catalog) && byId == ById(catalog)
    ensures error == None <==> GoodRequirements(catalog)
    ensures error.Some? ==>
      !error.value.Valid? && !error.value.RequiresCycle? && !error.value.DuplicateId? && Justified(catalog, error.value)
  {
    ByIdFinds(catalog);
    var n := 0;
    while n < |catalog|
      invariant 0 <= n <= |catalog|
      invariant forall i, dep :: 0 <= i < n && dep in catalog[i].needs ==> GoodRequirement(byId, catalog[i], dep)
    {
      var def := catalog[n];
      var k := 0;
      while k < |def.needs|
        invariant 0 <= k <= |def.needs|
        invariant forall j :: 0 <= j < k ==> GoodRequirement(byId, def, def.needs[j])
      {
        var dep := def.needs[k];
        assert byId[def.id] == def && Edge(byId, def.id, dep);
        assert dep in catalog[n].needs;
        if dep !in byId { return Some(UnknownRequirement(def.id, dep)); }
        if byId[dep].heat == Optional { return Some(OptionalRequirement(def.id, dep)); }
        if byId[dep].scope != AccountScope && byId[dep].scope != def.scope { return Some(ForeignScope(def.id, dep)); }
        k := k + 1;
      }
      n := n + 1;
    }
    return None;
  }

  /** `validate_catalog`: the raised errors are verdicts, the returned tuple is `Valid(order)`. */
  // ---------------------------------------------------------------- the same on the entries

  /** The entries lead round from a capability to itself, each requiring the next. */
  ghost predicate LeadsRound(catalog: seq<Def>, round: seq<Def>) {
    && |round| >= 2 && round[0] == round[|round| - 1]
    && (forall def :: def in round ==> def in catalog)
    && (forall i :: 0 < i < |round| ==> round[i].id in round[i - 1].needs)
  }

  /** What a catalog promises: ids are used once; a requirement is an entry that is not optional and is in account
      scope or in the requirer's own; nothing requires itself, however indirectly. */
  ghost predicate IsSound(catalog: seq<Def>) {
    && (forall i, j :: 0 <= i < j < |catalog| ==> catalog[i].id != catalog[j].id)
    && (forall def, need :: def in catalog && need in def.needs ==>
          exists dep :: dep in catalog && dep.id == need && dep.heat in {Required, Recommended}
                        && dep.scope in {AccountScope, def.scope})
    && (forall round :: !LeadsRound(catalog, round))
  }

  lemma EntryIsFound(catalog: seq<Def>, def: Def)
    requires DistinctIds(catalog) && def in catalog
    ensures def.id in ById(catalog) && ById(catalog)[def.id] == def
  {
    ByIdFinds(catalog);
    var i :| 0 <= i < |catalog| && catalog[i] == def;
  }

  lemma IdIsAnEntrys(catalog: seq<Def>, id: string)
    requires DistinctIds(catalog) && id in ById(catalog)
    ensures ById(catalog)[id] in catalog && ById(catalog)[id].id == id
  {
    ByIdKeys(catalog);
    ByIdFinds(catalog);
    var i :| 0 <= i < |catalog| && catalog[i].id == id;
  }

  lemma GoodRequirementIff(catalog: seq<Def>, def: Def, need: string)
    requires DistinctIds(catalog)
    ensures GoodRequirement(ById(catalog), def, need) <==>
      exists dep :: dep in catalog && dep.id == need && dep.heat in {Required, Recommended}
                    && dep.scope in {AccountScope, def.scope}
  {
    if GoodRequirement(ById(catalog), def, need) { IdIsAnEntrys(catalog, need); }
    if dep :| dep in catalog && dep.id == need && dep.heat in {Required, Recommended}
              && dep.scope in {AccountScope, def.scope} {
      EntryIsFound(catalog, dep);
    }
  }

  lemma RoundIsACycle(catalog: seq<Def>, round: seq<Def>)
    requires DistinctIds(catalog) && LeadsRound(catalog, round)
    ensures exists cycle :: IsCycle(ById(catalog), cycle)
  {
    var cycle := seq(|round|, i requires 0 <= i < |round| => round[i].id);
    forall i, j | 0 <= i < j < |cycle| && j == i + 1 ensures Edge(ById(catalog), cycle[i], cycle[j]) {
      EntryIsFound(catalog, round[i]);
      assert round[j].id in round[j - 1].needs;
    }
    assert IsCycle(ById(catalog), cycle);
  }

  lemma CycleIsARound(catalog: seq<Def>, cycle: seq<string>)
    requires WellFormed(catalog) && IsCycle(ById(catalog), cycle)
    ensures exists round :: LeadsRound(catalog, round)
  {
    var byId := ById(catalog);
    GoodRequirementsClose(catalog);
    forall i | 0 <= i < |cycle| ensures cycle[i] in byId {
      if i + 1 < |cycle| { assert Edge(byId, cycle[i], cycle[i + 1]); } else { assert Edge(byId, cycle[0], cycle[1]); }
    }
    var round := seq(|cycle|, i requires 0 <= i < |cycle| => byId[cycle[i]]);
    forall def | def in round ensures def in catalog {
      var i :| 0 <= i < |round| && round[i] == def;
      IdIsAnEntrys(catalog, cycle[i]);
    }
    forall i | 0 < i < |round| ensures round[i].id in round[i - 1].needs {
      IdIsAnEntrys(catalog, cycle[i]);
      assert Edge(byId, cycle[i - 1], cycle[i]);
    }
    assert LeadsRound(catalog, round);
  }

  lemma SoundIff(catalog: seq<Def>)
    ensures IsSound(catalog) <==> WellFormed(catalog) && Acyclic(ById(catalog))
  {
    if DistinctIds(catalog) {
      forall def, need ensures GoodRequirement(ById(catalog), def, need) <==>
        exists dep :: dep in catalog && dep.id == need && dep.heat in {Required, Recommended}
                      && dep.scope in {AccountScope, def.scope} {
        GoodRequirementIff(catalog, def, need);
      }
      if GoodRequirements(catalog) {
        if cycle :| IsCycle(ById(catalog), cycle) { CycleIsARound(catalog, cycle); }
        if round :| LeadsRound(catalog, round) { RoundIsACycle(catalog, round); }
      }
    }
  }

  /** Each id once, and every requirement of an entry before the entry. */
  ghost predicate InOrder(catalog: seq<Def>, order: seq<string>) {
    && |order| == |catalog|
    && (forall i, j :: 0 <= i < j < |order| ==> order[i] != order[j])
    && (forall def :: def in catalog ==> def.id in order)
    && (forall def, need, i :: def in catalog && need in def.needs && 0 <= i < |order| && order[i] == def.id ==>
          need in order[..i])
  }

  lemma ValidIsInOrder(catalog: seq<Def>, order: seq<string>)
    requires DistinctIds(catalog) && Justified(catalog, Valid(order))
    ensures InOrder(catalog, order)
  {
    ValidOrderIsPermutation(catalog, order);
    NoRepeatsMeansDistinct(order);
    forall def | def in catalog ensures def.id in order && ById(catalog)[def.id] == def { EntryIsFound(catalog, def); }
    forall def, need, i | def in catalog && need in def.needs && 0 <= i < |order| && order[i] == def.id
      ensures need in order[..i] {
      assert Edge(ById(catalog), order[i], need);
    }
  }

  method ValidateCatalog(catalog: seq<Def>) returns (verdict: Verdict)
    ensures verdict.Valid? <==> IsSound(catalog)
    ensures verdict.Valid? ==> InOrder(catalog, verdict.order)
    ensures verdict.Valid? <==> WellFormed(catalog) && Acyclic(ById(catalog))
    ensures Justified(catalog, verdict)
  {
    SoundIff(catalog);
    var byId, duplicate := IndexById(catalog);
    if duplicate.Some? { return DuplicateId(duplicate.value); }
    var error := CheckRequirements(catalog, byId);
    if error.Some? { return error.value; }
    GoodRequirementsClose(catalog);
    ByIdKeys(catalog);
    var sorter := new Sorter(byId);
    var cycle := sorter.Sort(catalog);
    if cycle.Some? { return RequiresCycle(cycle.value); }
    assert forall id :: id in byId ==> id in Elements(Ids(catalog)) by {
      forall id | id in byId ensures id in Ids(catalog) {
        var i :| 0 <= i < |catalog| && catalog[i].id == id;
        assert Ids(catalog)[i] == id;
      }
    }
    assert forall id :: id in sorter.order <==> id in Elements(sorter.order);
    OrderExcludesCycles(byId, sorter.order);
    ValidIsInOrder(catalog, sorter.order);
    return Valid(sorter.order);
  }

  /** A valid order is a permutation of the catalog's ids. */
  lemma ValidOrderIsPermutation(catalog: seq<Def>, order: seq<string>)
    requires DistinctIds(catalog) && Justified(catalog, Valid(order))
    ensures |order| == |catalog| && multiset(order) == multiset(Ids(catalog))
  {
    var ids := Ids(catalog);
    ByIdKeys(catalog);
    assert forall id :: id in ids <==> id in ById(catalog) by {
      forall id | id in ById(catalog) ensures id in ids {
        var i :| 0 <= i < |catalog| && catalog[i].id == id;
        assert ids[i] == id;
      }
    }
    NoRepeatsMeansDistinct(ids);
    SameElements(order, ids);
    assert |multiset(order)| == |order| && |multiset(ids)| == |ids|;
  }

  function Ids(catalog: seq<Def>): (r: seq<string>)
    ensures |r| == |catalog| && forall i :: 0 <= i < |r| ==> r[i] == catalog[i].id
  {
    seq(|catalog|, i requires 0 <= i < |catalog| => catalog[i].id)
  }

  lemma {:induction false} CountsOnce(a: seq<string>)
    requires NoRepeats(a)
    ensures forall id :: multiset(a)[id] == if id in a then 1 else 0
  {
    if a != [] {
      var n := |a| - 1;
      assert a == a[..n] + [a[n]];
      CountsOnce(a[..n]);
      assert a[n] !in a[..n];
      assert forall id :: id in a <==> id in a[..n] || id == a[n];
    }
  }

  lemma SameElements(a: seq<string>, b: seq<string>)
    requires NoRepeats(a) && NoRepeats(b) && forall id :: id in a <==> id in b
    ensures multiset(a) == multiset(b)
  {
    CountsOnce(a);
    CountsOnce(b);
  }
}
