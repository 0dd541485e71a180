// Where the album protocol's promises stop: under max+1, a sweep that deletes the newest row
// lets a seq be handed out twice.
module AlbumCounterexamples {
  import opened Wrappers
  import opened EventTable
  import opened AlbumMerge
  import opened AlbumGuarantees
  import opened AlbumSweeps

  /** A sweep keeps the newest row of the table. */
  predicate TopSurvives(rows: seq<Row>, now: int) {
    rows == [] || rows[|rows| - 1].createdAt >= now - ROW_TTL
  }

  /** Under max+1, the seq handed out after a sweep is new exactly when the newest row survived it. */
  lemma SweepReusesSeqIffTopIsSwept(w: World)
    requires TableOk(w) && w.alloc.MaxPlusOne?
    ensures NextSeq(MaxPlusOne, Next(w, Sweep).rows, w.high) > w.high <==> TopSurvives(w.rows, w.now)
  {
    var f, kept := SweepOld(w.now), Rewrite(w.rows, SweepOld(w.now));
    if TopSurvives(w.rows, w.now) {
      RewriteKeepsMax(w.rows, f);
    } else if kept == [] {
      assert RowOk(w.rows[|w.rows| - 1], w.high, w.minted, w.now);
    } else {
      var last := kept[|kept| - 1];
      RewriteOrigin(w.rows, f, last);
      var o :| o in w.rows && f(o) == Some(last);
      LastIsMax(w.rows, o);
      if o.seqNo == w.high { AscendingUnique(w.rows, o, w.rows[|w.rows| - 1]); }
    }
  }

  const PHOTO := Item("repo", TELEGRAM, "photo", [Pointer("a")], Some("album"), None, None)
  const SECOND := Item("repo", TELEGRAM, "", [Pointer("b")], Some("album"), None, None)

  function Photo(n: nat, at: int): Row {
    FreshRow(PHOTO, 1, Minted(n), at)
  }

  /** Event 0 stands alone at seq 1, and a worker that read it inside the merge window is still to write. */
  const BEFORE := World(MaxPlusOne, [Photo(0, 0)], 1, 1, ROW_TTL + 1,
                        [Landed(PHOTO, Minted(0)), Holding(SECOND, 0, Photo(0, 0))], multiset{})

  /** Event 0 outlived its row TTL and was swept. */
  const SWEPT := World(MaxPlusOne, [], 0, 1, ROW_TTL + 1,
                       [Landed(PHOTO, Minted(0)), Holding(SECOND, 0, Photo(0, 0))], multiset{Pointer("a")})

  /** Event 1, with the same content, was given the freed seq. */
  const TWIN := World(MaxPlusOne, [Photo(1, ROW_TTL + 1)], 1, 2, ROW_TTL + 1,
                      [Landed(PHOTO, Minted(0)), Holding(SECOND, 0, Photo(0, 0)), Landed(PHOTO, Minted(1))],
                      multiset{Pointer("a")})

  const LANDED := World(MaxPlusOne, [Photo(0, 0)], 1, 1, 0, [Landed(PHOTO, Minted(0))], multiset{})

  const EMPTY := World(MaxPlusOne, [], 0, 0, 0, [], multiset{})

  lemma PhotoLands()
    ensures Next(Next(Next(EMPTY, Arrive(PHOTO)), Search(0)), Mint(0)) == LANDED
  {
    var searched := Next(Next(EMPTY, Arrive(PHOTO)), Search(0));
    assert searched.workers == [Minting(PHOTO)];
  }

  lemma SiblingReads()
    ensures Next(Next(Next(LANDED, Arrive(SECOND)), Search(1)), Tick(ROW_TTL + 1)) == BEFORE
  {
    var arrived := Next(LANDED, Arrive(SECOND));
    assert arrived.workers == [Landed(PHOTO, Minted(0)), Searching(SECOND, 0)];
    assert IsOpenFor(arrived.rows[0], SECOND, 0);
    assert Next(arrived, Search(1)).workers == [Landed(PHOTO, Minted(0)), Holding(SECOND, 0, Photo(0, 0))];
  }

  lemma ThreeStepsKeepInv(w: World, a: Step, b: Step, c: Step)
    requires Inv(w) && !a.Sweep? && !b.Sweep? && !c.Sweep?
    ensures Inv(Next(Next(Next(w, a), b), c))
  {
    StepKeepsInv(w, a);
    StepKeepsInv(Next(w, a), b);
    StepKeepsInv(Next(Next(w, a), b), c);
  }

  lemma SweepEmptiesTable()
    ensures Next(BEFORE, Sweep) == SWEPT
    ensures !SafeStep(BEFORE, Sweep)
  {
    var rows := BEFORE.rows;
    var f := SweepOld(BEFORE.now);
    assert f(rows[0]) == None;
    assert rows[..0] == [];
    assert Rewrite(rows, f) == [];
    assert Shed(rows, f) == multiset{Pointer("a")};
    assert BEFORE.workers[1].Holding? && BEFORE.workers[1].read.seqNo > Swept(BEFORE).high;
  }

  /** One photo lands, its sibling reads the open album, and the sibling stalls. */
  lemma BeforeIsReachable()
    ensures Next(Next(Next(Next(Next(Next(EMPTY, Arrive(PHOTO)), Search(0)), Mint(0)), Arrive(SECOND)), Search(1)),
                 Tick(ROW_TTL + 1))
            == BEFORE
    ensures Inv(BEFORE) && !SafeStep(BEFORE, Sweep)
  {
    InitInv(EMPTY);
    PhotoLands();
    ThreeStepsKeepInv(EMPTY, Arrive(PHOTO), Search(0), Mint(0));
    SiblingReads();
    ThreeStepsKeepInv(LANDED, Arrive(SECOND), Search(1), Tick(ROW_TTL + 1));
    SweepEmptiesTable();
  }

  lemma TwinTakesSeq()
    ensures Next(Next(Next(SWEPT, Arrive(PHOTO)), Search(2)), Mint(2)) == TWIN
  {
    var arrived := Next(SWEPT, Arrive(PHOTO));
    assert OpenAlbum(arrived.rows, PHOTO, arrived.now) == None;
    var searched := Next(arrived, Search(2));
    assert searched.workers == [Landed(PHOTO, Minted(0)), Holding(SECOND, 0, Photo(0, 0)), Minting(PHOTO)];
  }

  lemma StaleSwapLands()
    ensures Next(TWIN, Swap(1)).rows == [Replacement(Photo(0, 0), SECOND, 2, Minted(0))]
  {
    var read := Photo(0, 0);
    var twin := TWIN.rows[0];
    assert SwapMatches(twin, read) && twin in TWIN.rows;
    assert TWIN.rows[..0] == [];
    assert Rewrite(TWIN.rows, DeleteIfCurrent(read)) == [];
  }

  /** Sweeping the newest row of a SQLite table lets a stale merge queue a swept event again, in the place of
      another. */
  lemma SweptEventComesBack()
    ensures Inv(BEFORE) && !SafeStep(BEFORE, Sweep)
    ensures !IsQueued(Next(BEFORE, Sweep).rows, Minted(0))
    ensures var after := Run(BEFORE, [Sweep, Arrive(PHOTO), Search(2), Mint(2), Swap(1)]);
            IsQueued(after.rows, Minted(0)) && !IsQueued(after.rows, Minted(1))
  {
    BeforeIsReachable();
    SweepEmptiesTable();
    StaleRun();
    StaleSwapLands();
    OnlyTheSweptEvent(Next(TWIN, Swap(1)).rows);
  }

  lemma StaleRun()
    ensures Run(BEFORE, [Sweep, Arrive(PHOTO), Search(2), Mint(2), Swap(1)]) == Next(TWIN, Swap(1))
  {
    SweepEmptiesTable();
    TwinTakesSeq();
    RunFive(BEFORE, Sweep, Arrive(PHOTO), Search(2), Mint(2), Swap(1));
  }

  lemma OnlyTheSweptEvent(rows: seq<Row>)
    requires rows == [Replacement(Photo(0, 0), SECOND, 2, Minted(0))]
    ensures IsQueued(rows, Minted(0)) && !IsQueued(rows, Minted(1))
  {
    assert rows[0] in rows;
  }

  lemma RunCons(w: World, a: Step, rest: seq<Step>)
    ensures Run(w, [a] + rest) == Run(Next(w, a), rest)
  {
    assert ([a] + rest)[1..] == rest;
  }

  lemma RunFive(w: World, a: Step, b: Step, c: Step, d: Step, e: Step)
    ensures Run(w, [a, b, c, d, e]) == Next(Next(Next(Next(Next(w, a), b), c), d), e)
  {
    var w2 := Next(Next(w, a), b);
    var w4 := Next(Next(w2, c), d);
    RunPast(w, a, b, [c, d] + [e]);
    RunPast(w2, c, d, [e]);
    RunCons(w4, e, []);
    assert [a, b, c, d, e] == [a, b] + ([c, d] + [e]);
    assert [e] == [e] + [];
  }
}
