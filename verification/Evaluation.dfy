// Evaluating the capability catalog: building one row per (id, scope, subject) from the detectors'
// raw readings, then the override pass that turns dark rows into frontier or waiting rows.
module Evaluation {
  import opened Wrappers
  import opened Catalog

  datatype State = Lit | Dark | Waiting | Unobservable

  /** Detectors report lit, dark or unobservable; waiting is never theirs to say. */
  type RawState = s: State | s != Waiting witness Lit

  datatype Key = Key(id: string, scope: Scope, subject: Option<string>)
  datatype Cell = Cell(state: State, frontier: bool)

  /** One reading of a detector: `_build(cdef, subject, state, ...)`. */
  datatype Reading = Reading(subject: Option<string>, state: RawState)

  datatype Outcome =
    | Rows(rows: map<Key, Cell>)
    | BadCatalog(verdict: Verdict)
    | NoDetector(id: string)
    | DuplicateInstance(key: Key)

  // ---------------------------------------------------------------- meaning of the rows

  function RequiresSubject(dep: Def, referrer: Option<string>): Option<string> {
    if dep.scope == AccountScope then None else referrer
  }

  function DepKey(byId: map<string, Def>, dep: string, subject: Option<string>): Key
    requires dep in byId
  {
    Key(dep, byId[dep].scope, RequiresSubject(byId[dep], subject))
  }

  predicate IsLit(rows: map<Key, Cell>, key: Key) {
    key in rows && rows[key].state == Lit
  }

  predicate NeedsLit(byId: map<string, Def>, rows: map<Key, Cell>, key: Key)
    requires Closed(byId) && key.id in byId
  {
    forall i :: 0 <= i < |byId[key.id].needs| ==> IsLit(rows, DepKey(byId, byId[key.id].needs[i], key.subject))
  }

  /** The closed form: one row's final cell, from the raw cells of its direct requirements. */
  function Settle(byId: map<string, Def>, raw: map<Key, Cell>, key: Key): Cell
    requires Closed(byId) && key in raw && key.id in byId
  {
    if raw[key].state != Dark || byId[key.id].needs == [] then raw[key]
    else if NeedsLit(byId, raw, key) then Cell(Dark, true)
    else Cell(Waiting, false)
  }

  ghost predicate RawRows(byId: map<string, Def>, raw: map<Key, Cell>) {
    Closed(byId) && forall key :: key in raw ==> key.id in byId && raw[key].state != Waiting && !raw[key].frontier
  }

  ghost function Settled(byId: map<string, Def>, raw: map<Key, Cell>): map<Key, Cell>
    requires RawRows(byId, raw)
  {
    map key | key in raw :: Settle(byId, raw, key)
  }

  // ---------------------------------------------------------------- the override pass

  /** Nothing the pass writes is lit and nothing lit is overwritten. */
  ghost predicate SameLit(raw: map<Key, Cell>, rows: map<Key, Cell>) {
    raw.Keys == rows.Keys && forall key :: key in raw ==> (raw[key].state == Lit <==> rows[key].state == Lit)
  }

  /** Rows of the ids already visited are final, the others still raw. */
  ghost predicate Progress(byId: map<string, Def>, raw: map<Key, Cell>, rows: map<Key, Cell>, visited: set<Key>)
    requires RawRows(byId, raw)
  {
    raw.Keys == rows.Keys && forall key ::
      key in raw ==> rows[key] == if key in visited then Settle(byId, raw, key) else raw[key]
  }

  lemma ProgressKeepsLit(byId: map<string, Def>, raw: map<Key, Cell>, rows: map<Key, Cell>, visited: set<Key>, key: Key)
    requires RawRows(byId, raw) && Progress(byId, raw, rows, visited) && key.id in byId
    ensures SameLit(raw, rows)
    ensures NeedsLit(byId, rows, key) <==> NeedsLit(byId, raw, key)
  {
    assert forall k :: IsLit(rows, k) <==> IsLit(raw, k);
  }

  method RequirementsLit(byId: map<string, Def>, rows: map<Key, Cell>, key: Key) returns (lit: bool)
    requires Closed(byId) && key.id in byId
    ensures lit <==> NeedsLit(byId, rows, key)
  {
    var needs := byId[key.id].needs;
    var i := 0;
    while i < |needs|
      invariant 0 <= i <= |needs|
      invariant forall j :: 0 <= j < i ==> IsLit(rows, DepKey(byId, needs[j], key.subject))
    {
      if !IsLit(rows, DepKey(byId, needs[i], key.subject)) { return false; }
      i := i + 1;
    }
    return true;
  }

  /** One turn of the outer loop: the dark rows of one id, in any iteration order of the dict. */
  method OverrideId(byId: map<string, Def>, ghost raw: map<Key, Cell>, start: map<Key, Cell>, cid: string,
                    ghost visited: set<Key>)
    returns (rows: map<Key, Cell>)
    requires RawRows(byId, raw) && Progress(byId, raw, start, visited) && cid in byId
    ensures Progress(byId, raw, rows, visited + OfId(raw.Keys, cid))
  {
    rows := start;
    if byId[cid].needs == [] { return; }
    var items := start;
    ghost var looked: set<Key> := {};
    while items.Keys != {}
      invariant items.Keys <= raw.Keys
      invariant looked == raw.Keys - items.Keys
      invariant forall key :: key in items ==> items[key] == start[key]
      invariant Progress(byId, raw, rows, visited + OfId(looked, cid))
      decreases items
    {
      var key :| key in items;
      ProgressKeepsLit(byId, raw, rows, visited + OfId(looked, cid), key);
      if key.id == cid && items[key].state == Dark {
        var lit := RequirementsLit(byId, rows, key);
        rows := rows[key := if lit then Cell(Dark, true) else Cell(Waiting, false)];
      }
      items := items - {key};
      looked := looked + {key};
      assert OfId(looked, cid) <= raw.Keys;
    }
  }

  ghost function OfId(keys: set<Key>, cid: string): set<Key> {
    set key | key in keys && key.id == cid
  }

  /** The pass settles exactly the rows whose id it visits, whatever the order it visits them in. */
  method Override(byId: map<string, Def>, raw: map<Key, Cell>, order: seq<string>) returns (rows: map<Key, Cell>)
    requires RawRows(byId, raw) && forall i :: 0 <= i < |order| ==> order[i] in byId
    ensures rows.Keys == raw.Keys
    ensures forall key :: key in raw ==> rows[key] == if key.id in order then Settle(byId, raw, key) else raw[key]
  {
    rows := raw;
    ghost var visited: set<Key> := {};
    var i := 0;
    while i < |order|
      invariant 0 <= i <= |order|
      invariant Progress(byId, raw, rows, visited)
      invariant forall key :: key in visited <==> key in raw && key.id in order[..i]
    {
      rows := OverrideId(byId, raw, rows, order[i], visited);
      visited := visited + OfId(raw.Keys, order[i]);
      assert order[..i + 1] == order[..i] + [order[i]];
      i := i + 1;
    }
    assert order[..i] == order;
  }

  // ---------------------------------------------------------------- the instance build

  ghost predicate DistinctSubjects(readings: seq<Reading>) {
    forall i, j :: 0 <= i < j < |readings| ==> readings[i].subject != readings[j].subject
  }

  function KeyOf(def: Def, reading: Reading): Key {
    Key(def.id, def.scope, reading.subject)
  }

  ghost predicate Contains(def: Def, readings: seq<Reading>, key: Key, cell: Cell) {
    exists i :: 0 <= i < |readings| && key == KeyOf(def, readings[i]) && cell == Cell(readings[i].state, false)
  }

  ghost predicate Built(byId: map<string, Def>, detectors: map<string, seq<Reading>>, ids: seq<string>,
                        raw: map<Key, Cell>) {
    && (forall i :: 0 <= i < |ids| ==> ids[i] in byId && ids[i] in detectors)
    && (forall key :: key in raw ==> key.id in ids && Contains(byId[key.id], detectors[key.id], key, raw[key]))
    && (forall i, k ::
        0 <= i < |ids| && 0 <= k < |detectors[ids[i]]| ==> KeyOf(byId[ids[i]], detectors[ids[i]][k]) in raw)
  }

  ghost predicate GoodDetectors(detectors: map<string, seq<Reading>>, ids: seq<string>) {
    forall i :: 0 <= i < |ids| ==> ids[i] in detectors && DistinctSubjects(detectors[ids[i]])
  }

  ghost predicate ReallyDuplicate(byId: map<string, Def>, detectors: map<string, seq<Reading>>, key: Key) {
    && key.id in byId && key.id in detectors
    && exists i, j ::
      0 <= i < j < |detectors[key.id]|
        && KeyOf(byId[key.id], detectors[key.id][i]) == key == KeyOf(byId[key.id], detectors[key.id][j])
  }

  /** Adds one detector's rows; a key already there is an error. */
  method AddReadings(def: Def, readings: seq<Reading>, start: map<Key, Cell>)
    returns (raw: map<Key, Cell>, duplicate: Option<Key>)
    requires forall key :: key in start ==> key.id != def.id
    ensures duplicate == None <==> DistinctSubjects(readings)
    ensures duplicate.Some? ==>
      exists i, j :: 0 <= i < j < |readings| && KeyOf(def, readings[i]) == duplicate.value == KeyOf(def, readings[j])
    ensures duplicate == None ==> forall k :: 0 <= k < |readings| ==> KeyOf(def, readings[k]) in raw
    ensures duplicate == None ==> start.Keys <= raw.Keys
    ensures duplicate == None ==>
      forall key ::
        key in raw ==>
          if key.id == def.id then Contains(def, readings, key, raw[key]) else key in start && raw[key] == start[key]
  {
    raw := start;
    var n := 0;
    assert readings[..0] == [];
    while n < |readings|
      invariant 0 <= n <= |readings|
      invariant DistinctSubjects(readings[..n])
      invariant Added(def, readings[..n], start, raw)
    {
      var key := KeyOf(def, readings[n]);
      if key in raw {
        SubjectSeen(def, readings, n, start, raw);
        return raw, Some(key);
      }
      AddedMore(def, readings, n, start, raw);
      raw := raw[key := Cell(readings[n].state, false)];
      n := n + 1;
    }
    assert readings[..n] == readings;
    return raw, None;
  }

  /** The rows of the other ids as they were, and one raw row for each reading. */
  ghost predicate Added(def: Def, readings: seq<Reading>, start: map<Key, Cell>, raw: map<Key, Cell>) {
    && start.Keys <= raw.Keys
    && (forall k :: 0 <= k < |readings| ==> KeyOf(def, readings[k]) in raw)
    && (forall key ::
        key in raw ==>
          if key.id == def.id then Contains(def, readings, key, raw[key]) else key in start && raw[key] == start[key])
  }

  lemma SubjectSeen(def: Def, readings: seq<Reading>, n: nat, start: map<Key, Cell>, raw: map<Key, Cell>)
    requires n < |readings| && Added(def, readings[..n], start, raw) && KeyOf(def, readings[n]) in raw
    ensures !DistinctSubjects(readings)
    ensures exists i, j ::
      0 <= i < j < |readings| && KeyOf(def, readings[i]) == KeyOf(def, readings[n]) == KeyOf(def, readings[j])
  {
    var i :| 0 <= i < n && KeyOf(def, readings[n]) == KeyOf(def, readings[..n][i]);
    assert readings[..n][i] == readings[i] && KeyOf(def, readings[i]) == KeyOf(def, readings[n]);
  }

  lemma AddedMore(def: Def, readings: seq<Reading>, n: nat, start: map<Key, Cell>, raw: map<Key, Cell>)
    requires n < |readings| && DistinctSubjects(readings[..n]) && Added(def, readings[..n], start, raw)
    requires KeyOf(def, readings[n]) !in raw
    ensures DistinctSubjects(readings[..n + 1])
    ensures Added(def, readings[..n + 1], start, raw[KeyOf(def, readings[n]) := Cell(readings[n].state, false)])
  {
    var more := readings[..n + 1];
    assert more[n] == readings[n] && forall i :: 0 <= i < n ==> more[i] == readings[..n][i];
    ContainsMore(def, readings, n, raw, raw[KeyOf(def, readings[n]) := Cell(readings[n].state, false)]);
  }

  lemma ContainsMore(def: Def, readings: seq<Reading>, n: nat, before: map<Key, Cell>, raw: map<Key, Cell>)
    requires n < |readings|
    requires forall key :: key in before && key.id == def.id ==> Contains(def, readings[..n], key, before[key])
    requires raw == before[KeyOf(def, readings[n]) := Cell(readings[n].state, false)]
    ensures forall key :: key in raw && key.id == def.id ==> Contains(def, readings[..n + 1], key, raw[key])
  {
    forall key | key in raw && key.id == def.id ensures Contains(def, readings[..n + 1], key, raw[key]) {
      if key == KeyOf(def, readings[n]) {
        assert readings[..n + 1][n] == readings[n];
      } else {
        var i :| 0 <= i < n && key == KeyOf(def, readings[..n][i]) && raw[key] == Cell(readings[..n][i].state, false);
        assert readings[..n + 1][i] == readings[..n][i];
      }
    }
  }

  lemma BuiltMore(byId: map<string, Def>, detectors: map<string, seq<Reading>>, ids: seq<string>, id: string,
                  before: map<Key, Cell>, raw: map<Key, Cell>)
    requires Built(byId, detectors, ids, before) && id !in ids
    requires id in byId && id in detectors && byId[id].id == id
    requires before.Keys <= raw.Keys
    requires forall k :: 0 <= k < |detectors[id]| ==> KeyOf(byId[id], detectors[id][k]) in raw
    requires forall key ::
      key in raw ==>
        if key.id == id then Contains(byId[id], detectors[id], key, raw[key])
          else key in before && raw[key] == before[key]
    ensures Built(byId, detectors, ids + [id], raw)
  {
    var more := ids + [id];
    assert id in more && forall i :: 0 <= i < |ids| ==> more[i] == ids[i];
    forall i, k | 0 <= i < |more| && 0 <= k < |detectors[more[i]]|
      ensures KeyOf(byId[more[i]], detectors[more[i]][k]) in raw {
      if i < |ids| {
        assert KeyOf(byId[ids[i]], detectors[ids[i]][k]) in before;
      }
    }
  }

  ghost predicate NamesItself(byId: map<string, Def>) {
    forall id :: id in byId ==> byId[id].id == id
  }

  method BuildInstances(byId: map<string, Def>, detectors: map<string, seq<Reading>>, order: seq<string>)
    returns (outcome: Outcome)
    requires NamesItself(byId) && NoRepeats(order) && forall i :: 0 <= i < |order| ==> order[i] in byId
    ensures outcome.Rows? <==> GoodDetectors(detectors, order)
    ensures !outcome.BadCatalog?
    ensures outcome.Rows? ==> Built(byId, detectors, order, outcome.rows)
    ensures outcome.NoDetector? ==> outcome.id in order && outcome.id !in detectors
    ensures outcome.DuplicateInstance? ==> ReallyDuplicate(byId, detectors, outcome.key)
  {
    NoRepeatsMeansDistinct(order);
    var raw: map<Key, Cell> := map[];
    var n := 0;
    while n < |order|
      invariant 0 <= n <= |order|
      invariant GoodDetectors(detectors, order[..n])
      invariant Built(byId, detectors, order[..n], raw)
    {
      var cid := order[n];
      if cid !in detectors { return NoDetector(cid); }
      var more, duplicate := AddReadings(byId[cid], detectors[cid], raw);
      if duplicate.Some? { return DuplicateInstance(duplicate.value); }
      BuiltMore(byId, detectors, order[..n], cid, raw, more);
      assert order[..n] + [cid] == order[..n + 1];
      raw := more;
      n := n + 1;
    }
    assert order[..n] == order;
    return Rows(raw);
  }

  // ---------------------------------------------------------------- evaluate_capabilities

  /** Every row of every detector, settled by the closed form, and no other row. */
  ghost predicate Evaluates(byId: map<string, Def>, detectors: map<string, seq<Reading>>, order: seq<string>,
                            rows: map<Key, Cell>) {
    exists raw :: RawRows(byId, raw) && Built(byId, detectors, order, raw) && rows == Settled(byId, raw)
  }

  ghost predicate LitIn(rows: map<Key, Cell>, key: Key) {
    key in rows && rows[key].state == Lit
  }

  /** Every requirement's own row is lit: the one row of an account capability, else the row of the same subject. */
  ghost predicate AllLit(catalog: seq<Def>, rows: map<Key, Cell>, def: Def, subject: Option<string>) {
    forall dep :: dep in catalog && dep.id in def.needs ==>
      if dep.scope == AccountScope then LitIn(rows, Key(dep.id, AccountScope, None))
      else LitIn(rows, Key(dep.id, dep.scope, subject))
  }

  /** The rows a catalog and its detectors give: one for each reading, as it was read, except that a dark one with
      requirements is on the frontier when they are all lit and waits when they are not. */
  ghost predicate AreTheRows(catalog: seq<Def>, detectors: map<string, seq<Reading>>, rows: map<Key, Cell>)
    requires forall def :: def in catalog ==> def.id in detectors
  {
    && (forall key :: key in rows ==> exists def, r :: def in catalog && r in detectors[def.id]
                                                       && key == Key(def.id, def.scope, r.subject))
    && (forall def, r :: def in catalog && r in detectors[def.id] ==> IsTheRow(catalog, rows, def, r))
  }

  lemma DefIsFound(catalog: seq<Def>, def: Def)
    requires WellFormed(catalog) && def in catalog
    ensures def.id in Ids(catalog) && def.id in ById(catalog) && ById(catalog)[def.id] == def
  {
    ByIdKeys(catalog);
    ByIdFinds(catalog);
    var i :| 0 <= i < |catalog| && catalog[i] == def;
    assert Ids(catalog)[i] == def.id;
  }

  lemma AllLitIsNeedsLit(catalog: seq<Def>, rows: map<Key, Cell>, def: Def, key: Key)
    requires WellFormed(catalog) && Closed(ById(catalog)) && def in catalog && key.id == def.id
    requires key.id in ById(catalog)
    ensures AllLit(catalog, rows, def, key.subject) <==> NeedsLit(ById(catalog), rows, key)
  {
    var byId := ById(catalog);
    DefIsFound(catalog, def);
    if AllLit(catalog, rows, def, key.subject) {
      forall i | 0 <= i < |def.needs| ensures IsLit(rows, DepKey(byId, def.needs[i], key.subject)) {
        NeedIsADef(catalog, def, def.needs[i]);
        assert byId[def.needs[i]] in catalog;
      }
    }
    if NeedsLit(byId, rows, key) {
      forall dep | dep in catalog && dep.id in def.needs
        ensures if dep.scope == AccountScope then LitIn(rows, Key(dep.id, AccountScope, None))
                else LitIn(rows, Key(dep.id, dep.scope, key.subject)) {
        DefIsFound(catalog, dep);
        var i :| 0 <= i < |def.needs| && def.needs[i] == dep.id;
        assert IsLit(rows, DepKey(byId, def.needs[i], key.subject));
      }
    }
  }

  lemma NeedIsADef(catalog: seq<Def>, def: Def, need: string)
    requires WellFormed(catalog) && Closed(ById(catalog)) && def in catalog && need in def.needs
    ensures need in ById(catalog) && ById(catalog)[need] in catalog && ById(catalog)[need].id == need
  {
    DefIsFound(catalog, def);
    ByIdKeys(catalog);
    ByIdFinds(catalog);
  }

  lemma AllDetected(catalog: seq<Def>, detectors: map<string, seq<Reading>>)
    requires WellFormed(catalog) && GoodDetectors(detectors, Ids(catalog))
    ensures forall def :: def in catalog ==> def.id in detectors
  {
    forall def | def in catalog ensures def.id in detectors { DefIsFound(catalog, def); }
  }

  lemma EvaluatedRows(catalog: seq<Def>, detectors: map<string, seq<Reading>>, rows: map<Key, Cell>)
    requires WellFormed(catalog) && Closed(ById(catalog)) && GoodDetectors(detectors, Ids(catalog))
    requires Evaluates(ById(catalog), detectors, Ids(catalog), rows)
    requires forall def :: def in catalog ==> def.id in detectors
    ensures AreTheRows(catalog, detectors, rows)
  {
    var byId, ids := ById(catalog), Ids(catalog);
    var raw :| RawRows(byId, raw) && Built(byId, detectors, ids, raw) && rows == Settled(byId, raw);
    forall key | key in rows ensures exists def, r :: def in catalog && r in detectors[def.id]
                                                      && key == Key(def.id, def.scope, r.subject) {
      RowHasADef(catalog, key);
      var i :| 0 <= i < |detectors[key.id]| && key == KeyOf(byId[key.id], detectors[key.id][i]);
      assert detectors[key.id][i] in detectors[key.id];
    }
    forall def, r | def in catalog && r in detectors[def.id]
      ensures IsTheRow(catalog, rows, def, r) {
      ReadingHasItsRow(catalog, detectors, raw, def, r);
      RowIsSettled(catalog, raw, def, r);
    }
  }

  /** The row of one reading. */
  ghost predicate IsTheRow(catalog: seq<Def>, rows: map<Key, Cell>, def: Def, r: Reading) {
    var key := Key(def.id, def.scope, r.subject);
    && key in rows
    && (r.state != Dark || def.needs == [] ==> rows[key] == Cell(r.state, false))
    && (r.state == Dark && def.needs != [] && AllLit(catalog, rows, def, r.subject) ==> rows[key] == Cell(Dark, true))
    && (r.state == Dark && def.needs != [] && !AllLit(catalog, rows, def, r.subject) ==>
          rows[key] == Cell(Waiting, false))
  }

  lemma RowIsSettled(catalog: seq<Def>, raw: map<Key, Cell>, def: Def, r: Reading)
    requires WellFormed(catalog) && Closed(ById(catalog)) && RawRows(ById(catalog), raw) && def in catalog
    requires var key := Key(def.id, def.scope, r.subject); key in raw && raw[key] == Cell(r.state, false)
    ensures IsTheRow(catalog, Settled(ById(catalog), raw), def, r)
  {
    var rows, key := Settled(ById(catalog), raw), Key(def.id, def.scope, r.subject);
    DefIsFound(catalog, def);
    SettledIsTheOnlySolution(ById(catalog), raw, rows);
    AllLitIsNeedsLit(catalog, rows, def, key);
  }

  lemma RowHasADef(catalog: seq<Def>, key: Key)
    requires WellFormed(catalog) && key.id in Ids(catalog)
    ensures key.id in ById(catalog) && ById(catalog)[key.id] in catalog && ById(catalog)[key.id].id == key.id
  {
    var i :| 0 <= i < |catalog| && Ids(catalog)[i] == key.id;
    DefIsFound(catalog, catalog[i]);
  }

  lemma ReadingHasItsRow(catalog: seq<Def>, detectors: map<string, seq<Reading>>, raw: map<Key, Cell>, def: Def,
                         r: Reading)
    requires WellFormed(catalog) && GoodDetectors(detectors, Ids(catalog))
    requires Built(ById(catalog), detectors, Ids(catalog), raw)
    requires def in catalog && def.id in detectors && r in detectors[def.id]
    ensures var key := Key(def.id, def.scope, r.subject); key in raw && raw[key] == Cell(r.state, false)
  {
    DefIsFound(catalog, def);
    var n :| 0 <= n < |catalog| && Ids(catalog)[n] == def.id;
    var k :| 0 <= k < |detectors[def.id]| && detectors[def.id][k] == r;
    var key := KeyOf(def, r);
    assert KeyOf(ById(catalog)[Ids(catalog)[n]], detectors[Ids(catalog)[n]][k]) in raw;
    var i :| 0 <= i < |detectors[def.id]| && key == KeyOf(def, detectors[def.id][i])
             && raw[key] == Cell(detectors[def.id][i].state, false);
    assert DistinctSubjects(detectors[Ids(catalog)[n]]);
  }

  method EvaluateCapabilities(catalog: seq<Def>, detectors: map<string, seq<Reading>>) returns (outcome: Outcome)
    ensures outcome.BadCatalog? <==> !(WellFormed(catalog) && Acyclic(ById(catalog)))
    ensures outcome.Rows? <==> WellFormed(catalog) && Acyclic(ById(catalog)) && GoodDetectors(detectors, Ids(catalog))
    ensures outcome.Rows? ==> Evaluates(ById(catalog), detectors, Ids(catalog), outcome.rows)
    ensures outcome.Rows? ==>
      (forall def :: def in catalog ==> def.id in detectors) && AreTheRows(catalog, detectors, outcome.rows)
    ensures outcome.NoDetector? ==> outcome.id in Ids(catalog) && outcome.id !in detectors
    ensures outcome.DuplicateInstance? ==> ReallyDuplicate(ById(catalog), detectors, outcome.key)
  {
    var verdict := ValidateCatalog(catalog);
    if !verdict.Valid? { return BadCatalog(verdict); }
    var byId, order := ById(catalog), verdict.order;
    SameIds(catalog, order);
    outcome := BuildInstances(byId, detectors, order);
    SameDetectors(detectors, order, Ids(catalog));
    if !outcome.Rows? { return; }
    var raw := outcome.rows;
    BuiltRows(byId, detectors, order, Ids(catalog), raw);
    var rows := Override(byId, raw, order);
    assert rows == Settled(byId, raw);
    AllDetected(catalog, detectors);
    EvaluatedRows(catalog, detectors, rows);
    return Rows(rows);
  }

  lemma SameIds(catalog: seq<Def>, order: seq<string>)
    requires WellFormed(catalog) && Justified(catalog, Valid(order))
    ensures Closed(ById(catalog)) && NamesItself(ById(catalog))
    ensures forall id :: id in order <==> id in Ids(catalog)
    ensures forall id :: id in order <==> id in ById(catalog)
  {
    GoodRequirementsClose(catalog);
    ByIdKeys(catalog);
    ByIdFinds(catalog);
    forall id | id in ById(catalog) ensures id in Ids(catalog) && ById(catalog)[id].id == id {
      var i :| 0 <= i < |catalog| && catalog[i].id == id;
      assert Ids(catalog)[i] == id;
    }
  }

  lemma SameDetectors(detectors: map<string, seq<Reading>>, a: seq<string>, b: seq<string>)
    requires forall id :: id in a <==> id in b
    ensures GoodDetectors(detectors, a) <==> GoodDetectors(detectors, b)
  {
    assert forall i :: 0 <= i < |a| ==> a[i] in b;
    assert forall i :: 0 <= i < |b| ==> b[i] in a;
  }

  lemma BuiltRows(byId: map<string, Def>, detectors: map<string, seq<Reading>>, order: seq<string>, ids: seq<string>,
                  raw: map<Key, Cell>)
    requires Closed(byId) && Built(byId, detectors, order, raw)
    requires forall id :: id in order <==> id in ids
    ensures RawRows(byId, raw) && Built(byId, detectors, ids, raw)
  {
    assert forall i :: 0 <= i < |ids| ==> ids[i] in order;
    forall i, k | 0 <= i < |ids| && 0 <= k < |detectors[ids[i]]|
      ensures KeyOf(byId[ids[i]], detectors[ids[i]][k]) in raw {
      var j :| 0 <= j < |order| && order[j] == ids[i];
      assert KeyOf(byId[order[j]], detectors[order[j]][k]) in raw;
    }
  }

  // ---------------------------------------------------------------- what the settled rows mean

  /** The documented reading, on final states: a row that would be dark waits exactly when some
      requirement's final row is missing or not lit, so waiting travels through waiting rows. */
  ghost predicate Consistent(byId: map<string, Def>, raw: map<Key, Cell>, rows: map<Key, Cell>)
    requires RawRows(byId, raw)
  {
    && rows.Keys == raw.Keys
    && forall key :: key in raw ==>
      if raw[key].state == Dark && byId[key.id].needs != []
      then rows[key] == if NeedsLit(byId, rows, key) then Cell(Dark, true) else Cell(Waiting, false)
      else rows[key] == raw[key]
  }

  /** The closed form is the one solution of the documented equations. */
  lemma SettledIsTheOnlySolution(byId: map<string, Def>, raw: map<Key, Cell>, rows: map<Key, Cell>)
    requires RawRows(byId, raw)
    ensures Consistent(byId, raw, rows) <==> rows == Settled(byId, raw)
  {
    assert forall key :: IsLit(Settled(byId, raw), key) <==> IsLit(raw, key);
    if Consistent(byId, raw, rows) {
      assert forall key :: IsLit(rows, key) <==> IsLit(raw, key) by {
        forall key ensures IsLit(rows, key) <==> IsLit(raw, key) {
          if key in raw {
            assert rows[key].state == Lit <==> raw[key].state == Lit;
          }
        }
      }
      forall key | key in raw ensures rows[key] == Settle(byId, raw, key) {
      }
      assert rows == Settled(byId, raw);
    }
  }

  /** Lighting rows, or adding lit ones, leaves everything else as it was. */
  ghost predicate Brighter(raw: map<Key, Cell>, brighter: map<Key, Cell>) {
    && raw.Keys <= brighter.Keys
    && (forall key :: key in raw ==> brighter[key] == raw[key] || brighter[key].state == Lit)
    && (forall key :: key in brighter && key !in raw ==> brighter[key].state == Lit)
  }

  /** Lighting rows never makes a row wait: a row that waits afterwards waited before, and a
      frontier row stays on the frontier unless it was lit itself. */
  lemma LightingIsMonotone(byId: map<string, Def>, raw: map<Key, Cell>, brighter: map<Key, Cell>, key: Key)
    requires RawRows(byId, raw) && RawRows(byId, brighter) && Brighter(raw, brighter) && key in brighter
    ensures Settled(byId, brighter)[key].state == Waiting ==> key in raw && Settled(byId, raw)[key].state == Waiting
    ensures key in raw && Settled(byId, raw)[key].frontier ==>
      Settled(byId, brighter)[key].frontier || Settled(byId, brighter)[key].state == Lit
  {
    assert forall k :: IsLit(raw, k) ==> IsLit(brighter, k);
    if key in raw && NeedsLit(byId, raw, key) {
      assert NeedsLit(byId, brighter, key);
    }
  }

  ghost predicate DiffersOnlyInOptional(byId: map<string, Def>, raw: map<Key, Cell>, other: map<Key, Cell>) {
    forall key: Key :: !(key.id in byId && byId[key.id].heat == Optional) ==>
      (key in raw <==> key in other) && (key in raw ==> raw[key] == other[key])
  }

  /** Optional capabilities never block: whatever their rows say, add or lose, every other row,
      and every optional row whose own reading is unchanged, comes out the same. */
  lemma OptionalNeverBlocks(catalog: seq<Def>, raw: map<Key, Cell>, other: map<Key, Cell>, key: Key)
    requires WellFormed(catalog)
    requires RawRows(ById(catalog), raw) && RawRows(ById(catalog), other)
    requires DiffersOnlyInOptional(ById(catalog), raw, other)
    requires key in raw && key in other && raw[key] == other[key]
    ensures Settled(ById(catalog), raw)[key] == Settled(ById(catalog), other)[key]
  {
    var byId := ById(catalog);
    ByIdKeys(catalog);
    ByIdFinds(catalog);
    var n :| 0 <= n < |catalog| && catalog[n].id == key.id;
    var needs := byId[key.id].needs;
    assert byId[key.id] == catalog[n];
    forall i | 0 <= i < |needs|
      ensures IsLit(raw, DepKey(byId, needs[i], key.subject)) <==> IsLit(other, DepKey(byId, needs[i], key.subject)) {
      assert GoodRequirement(byId, catalog[n], needs[i]);
    }
  }

  /** A row is on the frontier exactly when it is dark, has requirements, and all are lit: a dark
      row that requires nothing is dark without ever being on the frontier. */
  lemma FrontierIff(byId: map<string, Def>, raw: map<Key, Cell>, key: Key)
    requires RawRows(byId, raw) && key in raw
    ensures Settled(byId, raw)[key].frontier <==>
      Settled(byId, raw)[key].state == Dark && byId[key.id].needs != []
    ensures Settled(byId, raw)[key].frontier <==>
      raw[key].state == Dark && byId[key.id].needs != [] && NeedsLit(byId, Settled(byId, raw), key)
  {
    SettledIsTheOnlySolution(byId, raw, Settled(byId, raw));
  }

  // ---------------------------------------------------------------- why a row waits

  predicate Requires(byId: map<string, Def>, from: Key, to: Key)
    requires Closed(byId)
  {
    from.id in byId && exists i ::
      0 <= i < |byId[from.id].needs| && to == DepKey(byId, byId[from.id].needs[i], from.subject)
  }

  predicate WaitsAt(rows: map<Key, Cell>, key: Key) {
    key in rows && rows[key].state == Waiting
  }

  /** From a waiting row, through waiting rows, to a row that is absent, unobservable, or dark
      and not waiting; each link a requirement, each strictly earlier in the order. */
  ghost predicate Blames(byId: map<string, Def>, rows: map<Key, Cell>, order: seq<string>, chain: seq<Key>)
    requires Closed(byId)
  {
    && |chain| >= 2
    && (forall i :: 0 <= i < |chain| ==> chain[i].id in order)
    && (forall i :: 0 <= i < |chain| - 1 ==> WaitsAt(rows, chain[i]))
    && (forall i, j :: 0 <= i < j < |chain| && j == i + 1 ==>
      Requires(byId, chain[i], chain[j]) && IndexOf(order, chain[j].id) < IndexOf(order, chain[i].id))
    && var last := chain[|chain| - 1];
       last !in rows || rows[last].state == Unobservable || rows[last].state == Dark
  }

  lemma Unmet(byId: map<string, Def>, raw: map<Key, Cell>, key: Key) returns (dep: string)
    requires RawRows(byId, raw) && key in raw && Settled(byId, raw)[key].state == Waiting
    ensures Edge(byId, key.id, dep) && Requires(byId, key, DepKey(byId, dep, key.subject))
    ensures !IsLit(Settled(byId, raw), DepKey(byId, dep, key.subject))
  {
    var needs := byId[key.id].needs;
    var i :| 0 <= i < |needs| && !IsLit(raw, DepKey(byId, needs[i], key.subject));
    dep := needs[i];
  }

  lemma ChainExtends(byId: map<string, Def>, rows: map<Key, Cell>, order: seq<string>, key: Key, chain: seq<Key>)
    requires Closed(byId) && Blames(byId, rows, order, chain)
    requires key.id in order && WaitsAt(rows, key) && Requires(byId, key, chain[0])
    requires IndexOf(order, chain[0].id) < IndexOf(order, key.id)
    ensures Blames(byId, rows, order, [key] + chain)
  {
    var longer := [key] + chain;
    assert forall i :: 0 < i < |longer| ==> longer[i] == chain[i - 1];
    assert longer[|longer| - 1] == chain[|chain| - 1];
  }

  lemma {:induction false} WaitingHasABlamedChain(byId: map<string, Def>, raw: map<Key, Cell>, order: seq<string>,
                                                  key: Key) returns (chain: seq<Key>)
    requires RawRows(byId, raw) && DepsFirst(byId, order)
    requires key in raw && key.id in order && Settled(byId, raw)[key].state == Waiting
    ensures Blames(byId, Settled(byId, raw), order, chain) && chain[0] == key
    decreases IndexOf(order, key.id)
  {
    var rows := Settled(byId, raw);
    var dep := Unmet(byId, raw, key);
    EdgeDescends(byId, order, key.id, dep);
    var next := DepKey(byId, dep, key.subject);
    if WaitsAt(rows, next) {
      var rest := WaitingHasABlamedChain(byId, raw, order, next);
      ChainExtends(byId, rows, order, key, rest);
      chain := [key] + rest;
    } else {
      chain := [key, next];
    }
  }
}
