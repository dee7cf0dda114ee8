/** Queries that are split and do not answer right: a solution that fits a group it is not of, and a distinct COUNT. */
module RqlSplitLimits {
  import opened RqlTrees
  import opened RqlSharing
  import opened RqlVisitors
  import opened RqlIndexes
  import opened RqlVisits
  import opened RqlSnippets
  import opened RqlRewriters
  import opened RqlRewritings
  import opened RqlRows
  import opened RqlStages
  import opened RqlRuns
  import opened RqlSelects
  import opened RqlSplits
  import opened Wrappers

  // ----- the query, its groups and how it is split

  const LINKED: Node<Var> := Rel("r", Ref(0), Ref(1))

  /** Two types, any number of targets. */
  function TwoTypes(): Schema {
    Schema((r, e) => {"A", "B"}, (r, e) => {"A", "B"}, (r, e, t) => ('*', '*'))
  }

  function SETUP(): Setup {
    Setup(2, TwoTypes())
  }

  const BELONGS: Node<SnipVar> := Rel("s", Ref("X"), Ref("U"))

  const BELONGS_INSERTED: Node<Var> := Rel("s", Ref(0), Ref(2))

  const BELONGS_CHECK: Check := Check([Mapping("X", Ref(0), {"A"})], [BELONGS])

  const MIXED: Group := Group({map[0 := "A", 1 := "B"], map[0 := "B", 1 := "A"]}, [])

  const ALIKE: Group := Group({map[0 := "A", 1 := "A"]}, [BELONGS_CHECK])

  function SplitQuery(s: Select): Query {
    Query(LINKED, {0, 1}, {0, 1}, SETUP(), 2, s)
  }

  function BelongsCtx(): Ctx {
    CtxOf(BELONGS_CHECK, [VarInfo(Ref(0), {"A"}, map["r" := [OrigRel(LINKED, true, false)]], map[])], SETUP())
  }

  function MixedRun(s: Select): Run {
    Run(CallOf(SplitQuery(s), MIXED), [], LINKED, 3)
  }

  function AlikeRun(s: Select): Run {
    var stage := Stage(LINKED, BelongsCtx(), [Entry(BELONGS, 3, Accepted)], Before, 3);
    var call := CallOf(SplitQuery(s), ALIKE);
    Run(call, [stage], And(And(LINKED, call.UserRel()), Exists(BELONGS_INSERTED)),
        StateAfter(BELONGS, BelongsCtx(), 3).next)
  }

  function Groups(): (groups: seq<Group>)
    ensures |groups| == 2 && groups[0] == MIXED && groups[1] == ALIKE
  {
    [MIXED, ALIKE]
  }

  ghost function Runs(s: Select): (runs: seq<Run>)
    ensures |runs| == 2 && runs[0] == MixedRun(s) && runs[1] == AlikeRun(s)
  {
    [MixedRun(s), AlikeRun(s)]
  }

  ghost function Union(s: Select): (union: seq<Branch>)
    ensures |union| == 2
  {
    var alike := AlikeRun(s);
    [Branch(LINKED, {0, 1}, CallOf(SplitQuery(s), MIXED).types),
        Branch(alike.Result(), alike.ResultVars(), alike.call.types)]
  }

  // ----- the runs are those of the rewriter

  lemma BelongsIndex()
    ensures IndexOf(BelongsCtx().varinfos, BELONGS_CHECK.mapped, LINKED)
    ensures Revvarmap(BELONGS_CHECK.mapped) == map["X" := Ref(0)]
  {
    assert RelationsAbout(LINKED, AsObject, Ref(0)) == {OrigRel(LINKED, true, false)};
    assert RelationsAbout(LINKED, AsSubject, Ref(0)) == {};
  }

  /** Nothing is shared: the query has no relation "s". */
  lemma BelongsSuits(vis: seq<VarInfo>)
    requires IndexOf(vis, BELONGS_CHECK.mapped, LINKED)
    ensures var ctx := CtxOf(BELONGS_CHECK, vis, SETUP());
            Suits(BELONGS, ctx, 3) && Inserted(BELONGS, ctx, 3) == Some(BELONGS_INSERTED)
  {
    BelongsIndex();
    var ctx := CtxOf(BELONGS_CHECK, vis, SETUP());
    assert ShareOf(BELONGS, false, ctx) == None;
    assert Shared(BELONGS, false, ctx) == {} && Drops(BELONGS, false, ctx) == {};
  }

  lemma AlikeStage(s: Select)
    ensures Follows(AlikeRun(s).stages[0], BELONGS_CHECK, SETUP())
    ensures var log := AlikeRun(s).stages[0].log;
            (forall e <- log :: Told(e, BelongsCtx())) && Roots(log, BelongsCtx()) == [Exists(BELONGS_INSERTED)]
  {
    var log := AlikeRun(s).stages[0].log;
    BelongsIndex();
    BelongsSuits(BelongsCtx().varinfos);
    hide Inserted, IndexOf, StateAfter, Suits;
    assert log[0].verdict != Rejected && log[..0] == [];
  }

  lemma AlikeNames(s: Select)
    ensures InOrder(AlikeRun(s).stages[0].log, BelongsCtx(), 3, AlikeRun(s).hi)
  {
    NamesGrow(BELONGS, false, Start(3), BelongsCtx());
    hide Visit;
    assert InOrder(AlikeRun(s).stages[0].log[..0], BelongsCtx(), 3, 3);
  }

  lemma AlikeIsRewritten(s: Select)
    ensures Rewrote(AlikeRun(s))
  {
    var run := AlikeRun(s);
    AlikeStage(s);
    AlikeNames(s);
    assert run.call.checks == [BELONGS_CHECK] && run.call.where == LINKED && run.call.setup == SETUP();
    hide Follows, StateAfter, InOrder, Roots, BelongsCtx, CallOf;
    assert run.stages[..0] == [] && run.stages[0].log[0].verdict == Accepted;
    assert Staged(run.stages, run.call.UserRel(), LINKED, run.last, 3, run.hi);
    assert "U" in Vars(BELONGS) && run.call.checks[0].exprs[0] == BELONGS;
  }

  lemma SplitIsMade(s: Select)
    ensures AllMade(Union(s), Runs(s), SplitQuery(s), Groups())
  {
    AlikeIsRewritten(s);
    MixedIsRewritten(s);
    hide Rewrote, NoRoots, UserAdded;
    assert MixedRun(s).Result() == LINKED && MixedRun(s).ResultVars() == {0, 1};
    var union, runs, groups := Union(s), Runs(s), Groups();
    assert Made(union[0], runs[0], SplitQuery(s), groups[0]);
    assert Made(union[1], runs[1], SplitQuery(s), groups[1]);
  }

  lemma MixedIsRewritten(s: Select)
    ensures Rewrote(MixedRun(s)) && !UserAdded(MixedRun(s).stages) && MixedRun(s).Result() == LINKED
  {
  }

  // ----- the conditions on the query hold

  /** A database of two types. */
  ghost predicate Typed2(db: Db) {
    && db.dom == {0, 1, 2} && (forall v :: db.typeOf(v) in {"A", "B"})
    && (forall a, b :: db.rel("eid", a, b) <==> a == b)
  }

  lemma AlikeIsReady()
    ensures Ready(BELONGS_CHECK, SETUP(), LINKED, {0, 1})
  {
    forall vis | IndexOf(vis, BELONGS_CHECK.mapped, LINKED)
      ensures Suits(BELONGS, CtxOf(BELONGS_CHECK, vis, SETUP()), 3)
    {
      BelongsSuits(vis);
    }
    hide Suits, IndexOf;
    assert SuitsQuery(BELONGS_CHECK, SETUP(), LINKED);
  }

  lemma GroupIsPrepared(s: Select, g: Group, db: Db)
    requires Typed2(db) && (g == MIXED || g == ALIKE)
    ensures Prepared(CallOf(SplitQuery(s), g), db)
  {
    var call := CallOf(SplitQuery(s), g);
    AlikeIsReady();
    hide Ready;
    assert InOrderFor(call, db) && Conforms(db, TwoTypes());
    forall e | g == ALIKE && e in Solutions(LINKED, call.types, {0, 1}, db)
      ensures TypesRight(BELONGS_CHECK, e, db)
    {
      assert 0 in call.types && call.types[0] == {"A"};
    }
  }

  lemma GroupsAreAnalysed(s: Select)
    ensures Analysed(SplitQuery(s), Groups())
  {
    var a: TypeSol, b: TypeSol, c: TypeSol := map[0 := "A", 1 := "B"], map[0 := "B", 1 := "A"], map[0 := "A", 1 := "A"];
    assert a.Keys == b.Keys == c.Keys == {0, 1} && a[1] != c[1] && b[0] != c[0];
  }

  lemma SplitIsPrepared(s: Select, db: Db)
    requires Typed2(db) && forall v <- ColumnsOf(s.terms) :: v in {0, 1}
    ensures AllPrepared(SplitQuery(s), Groups(), db)
  {
    GroupIsPrepared(s, MIXED, db);
    GroupIsPrepared(s, ALIKE, db);
    GroupsAreAnalysed(s);
    hide Prepared, Analysed;
  }

  // ----- a solution that fits a group that it is not of

  function OnePair(granted: bool): Db {
    Db({0, 1, 2},
       (r, a, b) => if r == "eid" then a == b else (r, a, b) in {("r", 0, 1)} + if granted then {("s", 0, 2)} else {},
       v => if v == 0 || v == 1 then "A" else "B")
  }

  const PAIR: Env<Var> := map[0 := 0, 1 := 1]

  lemma PairIsSolution(granted: bool)
    ensures PAIR in Solutions(LINKED, map[], {0, 1}, OnePair(granted))
    ensures TypesOf(PAIR, {0, 1}, OnePair(granted)) == map[0 := "A", 1 := "A"]
  {
    var db := OnePair(granted);
    EnvsAreAll({0, 1}, db.dom, PAIR);
    assert Eval(LINKED, PAIR, {0, 1}, db);
  }

  lemma FitsMixed()
    ensures FitsGroup(map[0 := "A", 1 := "A"], MIXED, {0, 1}) && map[0 := "A", 1 := "A"] !in MIXED.sols
  {
    var a: TypeSol, b: TypeSol, c: TypeSol := map[0 := "A", 1 := "B"], map[0 := "B", 1 := "A"], map[0 := "A", 1 := "A"];
    assert a in MIXED.sols && b in MIXED.sols && a[0] == "A" && b[1] == "A" && a[1] != c[1] && b[0] != c[0];
  }

  lemma BelongsHolds(granted: bool)
    ensures Holds(BELONGS, BelongsCtx(), Plus(PAIR, 2, 2), OnePair(granted)) <==> granted
  {
    BelongsIndex();
    var e := MappedValues(BelongsCtx(), Plus(PAIR, 2, 2));
    assert BelongsCtx().Fixed() == map["X" := Ref(0), "U" := Ref(2)] && e == map["X" := 0, "U" := 2];
    assert BelongsCtx().Fixed().Keys == {"X", "U"} && OnePair(granted).rel("s", 0, 2) == granted;
    SatWhenBound(BELONGS, e, {"X", "U"}, OnePair(granted));
    hide BelongsCtx;
  }

  lemma PairIsLetThrough(s: Select, granted: bool)
    ensures LetThrough(PAIR, SplitQuery(s), MixedRun(s), OnePair(granted))
    ensures LetThrough(PAIR, SplitQuery(s), AlikeRun(s), OnePair(granted)) <==> granted
  {
    BelongsHolds(granted);
    hide Holds, StateAfter, BelongsCtx;
    var stage := AlikeRun(s).stages[0];
    assert stage.log[0].verdict == Accepted;
    assert LetThrough(PAIR, SplitQuery(s), AlikeRun(s), OnePair(granted)) <==>
             Allows(stage.log, stage.ctx, Plus(PAIR, 2, 2), OnePair(granted));
  }

  lemma PairIsAuthorized(s: Select, granted: bool)
    ensures PAIR in AuthorizedSolutions(SplitQuery(s), Groups(), Runs(s), OnePair(granted)) <==> granted
    ensures PAIR in Misfits(SplitQuery(s), MIXED, MixedRun(s), OnePair(granted))
  {
    PairIsSolution(granted);
    FitsMixed();
    PairIsLetThrough(s, granted);
    hide LetThrough, Solutions, FitsGroup, MixedRun, AlikeRun, TypesOf;
  }

  /** The query is split as the rewriter does it, and all that the rewriter needs holds. */
  ghost predicate SplitRun(s: Select, db: Db) {
    AllPrepared(SplitQuery(s), Groups(), db) && AllMade(Union(s), Runs(s), SplitQuery(s), Groups())
  }

  ghost predicate RightAnswer(s: Select, db: Db) {
    SplitAnswer(s, Union(s), Wraps(s, 2), db) == s.Answer(multiset(AuthorizedSolutions(SplitQuery(s), Groups(),
        Runs(s), db)))
  }

  lemma RightWithoutMisfit(s: Select, db: Db)
    requires SplitRun(s, db) && !s.distinct && s.group.None? && s.cut.None?
    ensures RightAnswer(s, db) <==> NoMisfit(SplitQuery(s), Groups(), Runs(s), db)
  {
    hide AllPrepared, AllMade, AuthorizedSolutions, NoMisfit, SplitAnswer, AlikeRun, MixedRun;
    SplitIsRight(SplitQuery(s), Groups(), Union(s), Runs(s), db);
  }

  /** A solution of types "A" and "A". The checks of its group deny it, or grant it; the other group's types are "A" and
      "B" or "B" and "A", so that its branch lets it in either way: without permission, or a second time. */
  lemma LetInByAnotherGroup(s: Select, granted: bool)
    requires !s.distinct && s.group.None? && s.cut.None? && forall v <- ColumnsOf(s.terms) :: v in {0, 1}
    ensures SplitRun(s, OnePair(granted)) && !RightAnswer(s, OnePair(granted))
    ensures PAIR in Misfits(SplitQuery(s), MIXED, MixedRun(s), OnePair(granted))
    ensures PAIR in AuthorizedSolutions(SplitQuery(s), Groups(), Runs(s), OnePair(granted)) <==> granted
  {
    SplitIsPrepared(s, OnePair(granted));
    SplitIsMade(s);
    PairIsAuthorized(s, granted);
    RightWithoutMisfit(s, OnePair(granted));
    hide AllPrepared, AllMade, AuthorizedSolutions, RightAnswer, LetThrough, Solutions, FitsGroup, MixedRun, AlikeRun,
           TypesOf;
    assert Groups()[0] == MIXED && Runs(s)[0] == MixedRun(s);
  }

  // ----- a distinct COUNT

  /** Two solutions with the same value for the variable that is selected. */
  function TwoPairs(): Db {
    Db({0, 1, 2}, (r, a, b) => if r == "eid" then a == b else (r, a, b) in {("r", 0, 1), ("r", 0, 2)},
       v => if v == 0 then "A" else "B")
  }

  function DistinctCountOf(funs: Funs): Select {
    Select([Use(0)], Some(CountRows()), true, None, funs)
  }

  function PairTo(b: Val): Env<Var> {
    map[0 := 0, 1 := b]
  }

  lemma ColumnsAre(funs: Funs)
    ensures ColumnsOf(DistinctCountOf(funs).terms) == [0]
  {
    assert ColumnsOf([]) == [] && [Use(0)][..0] == [];
    assert Columns(Use(0), []) == [0];
  }

  lemma PairsAreKept(funs: Funs, b: Val)
    requires b == 1 || b == 2
    ensures PairTo(b) in MixedRun(DistinctCountOf(funs)).Kept(TwoPairs())
  {
    var e, db := PairTo(b), TwoPairs();
    var types := CallOf(SplitQuery(DistinctCountOf(funs)), MIXED).types;
    EnvsAreAll({0, 1}, db.dom, e);
    assert Eval(LINKED, e, {0, 1}, db);
    var a: TypeSol := map[0 := "A", 1 := "B"];
    assert a in MIXED.sols && a[0] == "A" && a[1] == "B";
    assert TypesFit(e, types, db);
  }

  lemma TypesOfPairs(e: Env<Var>)
    requires e in Solutions(LINKED, map[], {0, 1}, TwoPairs())
    ensures TypesOf(e, {0, 1}, TwoPairs()) == map[0 := "A", 1 := "B"]
  {
    EnvsGive({0, 1}, TwoPairs().dom);
    assert TwoPairs().rel("r", e[0], e[1]);
  }

  lemma FitsMixedOnly()
    ensures map[0 := "A", 1 := "B"] in MIXED.sols && !FitsGroup(map[0 := "A", 1 := "B"], ALIKE, {0, 1})
  {
    var s: TypeSol := map[0 := "A", 1 := "B"];
    assert s[1] == "B" && forall t <- ALIKE.sols :: t[1] == "A";
  }

  lemma NoneIsMisfit(funs: Funs)
    ensures NoMisfit(SplitQuery(DistinctCountOf(funs)), Groups(), Runs(DistinctCountOf(funs)), TwoPairs())
  {
    FitsMixedOnly();
    forall e | e in Solutions(LINKED, map[], {0, 1}, TwoPairs())
      ensures TypesOf(e, {0, 1}, TwoPairs()) == map[0 := "A", 1 := "B"]
    {
      TypesOfPairs(e);
    }
    hide FitsGroup, Solutions, LetThrough, TypesOf, MIXED, ALIKE, Runs, TwoPairs;
  }

  lemma RowRepeats(run: Run, db: Db)
    requires PairTo(1) in run.Kept(db) && PairTo(2) in run.Kept(db)
    ensures !RowOnce([0], run, db)
  {
    var kept := run.Kept(db);
    assert PairTo(1)[1] != PairTo(2)[1] && Row([0], PairTo(1)) == [0] == Row([0], PairTo(2));
    hide Run.Kept;
    RowTwice([0], kept, PairTo(1), PairTo(2));
    RowsAreCounted([0], kept, [0]);
    RowsAreMapped([0], kept);
  }

  lemma RowsRepeat(funs: Funs)
    ensures !RowsOnce([0], Runs(DistinctCountOf(funs)), TwoPairs())
  {
    PairsAreKept(funs, 1);
    PairsAreKept(funs, 2);
    hide MixedRun, TwoPairs, RowOnce;
    RowRepeats(MixedRun(DistinctCountOf(funs)), TwoPairs());
    assert Runs(DistinctCountOf(funs))[0] == MixedRun(DistinctCountOf(funs));
  }

  /** No misfit, and a wrong answer all the same: COUNT gives one instead of two. */
  lemma DistinctCountIsWrong(funs: Funs)
    ensures SplitRun(DistinctCountOf(funs), TwoPairs()) && !RightAnswer(DistinctCountOf(funs), TwoPairs())
    ensures NoMisfit(SplitQuery(DistinctCountOf(funs)), Groups(), Runs(DistinctCountOf(funs)), TwoPairs())
  {
    var s, db := DistinctCountOf(funs), TwoPairs();
    ColumnsAre(funs);
    SplitIsPrepared(s, db);
    SplitIsMade(s);
    NoneIsMisfit(funs);
    RowsRepeat(funs);
    hide AllPrepared, AllMade, AuthorizedSolutions, NoMisfit, RowsOnce, SplitAnswer, AlikeRun, MixedRun;
    DistinctCount(SplitQuery(s), Groups(), Union(s), Runs(s), db);
    NoExtra(SplitQuery(s), Groups(), Runs(s), db);
    assert Asked(SplitQuery(s), Groups(), Runs(s), db) == multiset(AuthorizedSolutions(SplitQuery(s), Groups(),
             Runs(s), db));
  }
}
