/** Groups whose type solutions are not recovered variable by variable: for each such grouping there is a query that is
    split that way and answers wrong. */
module RqlRecovered {
  import opened RqlTrees
  import opened RqlSharing
  import opened RqlVisitors
  import opened RqlIndexes
  import opened RqlVisits
  import opened RqlSnippets
  import opened RqlRewriters
  import opened RqlRewritings
  import opened RqlRows
  import opened RqlStages
  import opened RqlRuns
  import opened RqlSelects
  import opened RqlSplits
  import opened RqlSplitLimits
  import opened Wrappers

  // ----- a query with one solution

  /** "V eid v": the variable has its own number as its value. */
  function Fixes(v: Var): Node<Var> {
    Rel("eid", Ref(v), Const(v))
  }

  function FixAll(vs: seq<Var>): Node<Var>
    requires vs != []
  {
    if |vs| == 1 then Fixes(vs[0]) else And(FixAll(vs[..|vs| - 1]), Fixes(vs[|vs| - 1]))
  }

  function Elements(vs: seq<Var>): set<Var> {
    set v | v in vs
  }

  lemma {:induction false} FixAllIs(vs: seq<Var>)
    requires vs != []
    ensures Vars(FixAll(vs)) == Elements(vs)
    ensures RelationsOf(FixAll(vs)) == set v | v in vs :: OrigRel(Fixes(v), true, false)
    ensures forall v <- vs :: TopConjunct(Fixes(v), FixAll(vs))
  {
    var n := |vs| - 1;
    if n > 0 {
      FixAllIs(vs[..n]);
      assert forall v :: v in vs <==> v in vs[..n] || v == vs[n];
      RelationsOfBoth(FixAll(vs[..n]), Fixes(vs[n]));
      assert RelationsOf(Fixes(vs[n])) == {OrigRel(Fixes(vs[n]), true, false)};
    } else {
      assert vs == [vs[0]];
    }
  }

  lemma {:induction false} FixAllMeans(vs: seq<Var>, e: Env<Var>, vars: set<Var>, db: Db)
    requires vs != [] && (forall v <- vs :: v in e) && forall a, b :: db.rel("eid", a, b) <==> a == b
    ensures Eval(FixAll(vs), e, vars, db) <==> forall v <- vs :: e[v] == v
  {
    var n := |vs| - 1;
    if n > 0 {
      FixAllMeans(vs[..n], e, vars, db);
      assert forall v :: v in vs <==> v in vs[..n] || v == vs[n];
    } else {
      assert vs == [vs[0]];
    }
  }

  // ----- the query, the database and the checks for given type solutions

  /** The types that there are: those of the type solution `s`, and the user's. */
  function AllTypes(s: TypeSol): set<EType> {
    (set v | v in s :: s[v]) + {"U"}
  }

  function AnyTargets(s: TypeSol): Schema {
    Schema((r, e) => AllTypes(s), (r, e) => AllTypes(s), (r, e, t) => ('*', '*'))
  }

  /** Each variable's value has the type that `s` says; nothing belongs to the user `u`. */
  function Owning(vs: seq<Var>, s: TypeSol, u: Var): Db {
    Db((set v | v in vs :: v as int) + {u as int}, (r, a, b) => r == "eid" && a == b, x => if x in s then s[x] else "U")
  }

  function FixQuery(vs: seq<Var>, s: TypeSol, u: Var, select: Select): Query
    requires vs != []
  {
    Query(FixAll(vs), Elements(vs), Elements(vs), Setup(u, AnyTargets(s)), u, select)
  }

  /** The values of the first variable must belong to the user. */
  function OwnCheck(x: Var, sols: set<TypeSol>): Check {
    Check([Mapping("X", Ref(x), PossibleTypes(sols, x))], [BELONGS])
  }

  /** The group `k` needs no check, the others do. */
  function GroupAt(groups: seq<set<TypeSol>>, k: nat, x: Var, i: nat): Group
    requires i < |groups|
  {
    Group(groups[i], if i == k then [] else [OwnCheck(x, groups[i])])
  }

  function GroupsOf(groups: seq<set<TypeSol>>, k: nat, x: Var): (gs: seq<Group>)
    ensures |gs| == |groups| && forall i | 0 <= i < |gs| :: gs[i] == GroupAt(groups, k, x, i)
  {
    seq(|groups|, i requires 0 <= i < |groups| => GroupAt(groups, k, x, i))
  }

  // ----- the runs

  function OwnCtx(x: Var, sols: set<TypeSol>, setup: Setup): Ctx {
    CtxOf(OwnCheck(x, sols), [VarInfo(Ref(x), PossibleTypes(sols, x), map["eid" := [OrigRel(Fixes(x), true, false)]],
        map[])], setup)
  }

  lemma OwnIndex(vs: seq<Var>, x: Var, sols: set<TypeSol>, setup: Setup)
    requires x in vs
    ensures IndexOf(OwnCtx(x, sols, setup).varinfos, OwnCheck(x, sols).mapped, FixAll(vs))
    ensures Revvarmap(OwnCheck(x, sols).mapped) == map["X" := Ref(x)]
  {
    FixAllIs(vs);
    assert RelationsAbout(FixAll(vs), AsObject, Ref(x)) == {OrigRel(Fixes(x), true, false)};
    assert RelationsAbout(FixAll(vs), AsSubject, Ref(x)) == {};
    assert Revvarmap(OwnCheck(x, sols).mapped[..0]) == map[];
  }

  /** Nothing is shared with "U". */
  lemma OwnSuits(x: Var, sols: set<TypeSol>, vis: seq<VarInfo>, setup: Setup)
    ensures var ctx := CtxOf(OwnCheck(x, sols), vis, setup);
            Suits(BELONGS, ctx, setup.u + 1) && Inserted(BELONGS, ctx, setup.u + 1)
                == Some(Rel("s", Ref(x), Ref(setup.u)))
  {
    assert Revvarmap(OwnCheck(x, sols).mapped[..0]) == map[];
    var ctx := CtxOf(OwnCheck(x, sols), vis, setup);
    assert ctx.revvarmap == map["X" := Ref(x)];
    assert ShareOf(BELONGS, false, ctx) == None;
    assert Shared(BELONGS, false, ctx) == {} && Drops(BELONGS, false, ctx) == {};
  }

  function OwnStage(where: Node<Var>, x: Var, sols: set<TypeSol>, setup: Setup): Stage {
    Stage(where, OwnCtx(x, sols, setup), [Entry(BELONGS, setup.u + 1, Accepted)], Before, setup.u + 1)
  }

  function OwnRun(call: Call, x: Var, sols: set<TypeSol>): Run {
    var start := call.setup.u + 1;
    Run(call, [OwnStage(call.where, x, sols, call.setup)],
        And(And(call.where, call.UserRel()), Exists(Rel("s", Ref(x), Ref(call.setup.u)))),
        StateAfter(BELONGS, OwnCtx(x, sols, call.setup), start).next)
  }

  lemma OwnFollows(vs: seq<Var>, x: Var, sols: set<TypeSol>, setup: Setup)
    requires x in vs
    ensures Follows(OwnStage(FixAll(vs), x, sols, setup), OwnCheck(x, sols), setup)
    ensures var log, ctx := OwnStage(FixAll(vs), x, sols, setup).log, OwnCtx(x, sols, setup);
            && (forall e <- log :: Told(e, ctx)) && Roots(log, ctx) == [Exists(Rel("s", Ref(x), Ref(setup.u)))]
            && InOrder(log, ctx, setup.u + 1, StateAfter(BELONGS, ctx, setup.u + 1).next)
  {
    var ctx := OwnCtx(x, sols, setup);
    var log := OwnStage(FixAll(vs), x, sols, setup).log;
    OwnIndex(vs, x, sols, setup);
    OwnSuits(x, sols, ctx.varinfos, setup);
    NamesGrow(BELONGS, false, Start(setup.u + 1), ctx);
    hide Inserted, IndexOf, Visit, Suits, Revvarmap;
    assert log[..0] == [] && log[0].verdict != Rejected;
  }

  lemma OwnIsRewritten(vs: seq<Var>, call: Call, x: Var, sols: set<TypeSol>)
    requires x in vs && call.where == FixAll(vs) && call.checks == [OwnCheck(x, sols)]
    ensures Rewrote(OwnRun(call, x, sols))
  {
    var run := OwnRun(call, x, sols);
    OwnFollows(vs, x, sols, call.setup);
    hide Follows, StateAfter, InOrder, Roots, Told, OwnCtx, FixAll;
    assert run.stages[..0] == [] && run.stages[0].log[0].verdict == Accepted && run.stages[0].when != Never;
    assert Staged(run.stages, run.call.UserRel(), call.where, run.last, call.setup.u + 1, run.hi);
    assert "U" in Vars(BELONGS) && run.call.checks[0].exprs[0] == BELONGS;
  }

  function RunAt(q: Query, g: Group, x: Var): Run {
    if g.checks == [] then Run(CallOf(q, g), [], q.where, q.setup.u + 1) else OwnRun(CallOf(q, g), x, g.sols)
  }

  ghost function BranchAt(q: Query, g: Group, x: Var): Branch {
    var run := RunAt(q, g, x);
    Branch(run.Result(), run.ResultVars(), run.call.types)
  }

  lemma GroupIsMade(vs: seq<Var>, q: Query, g: Group, x: Var)
    requires x in vs && q.where == FixAll(vs) && (g.checks == [] || g.checks == [OwnCheck(x, g.sols)])
    ensures Made(BranchAt(q, g, x), RunAt(q, g, x), q, g)
  {
    hide Rewrote, NoRoots, UserAdded, FixAll, Restriction;
    if g.checks == [] {
      NoCheckIsRewritten(q, g);
    } else {
      OwnIsRewritten(vs, CallOf(q, g), x, g.sols);
    }
  }

  lemma NoCheckIsRewritten(q: Query, g: Group)
    requires g.checks == []
    ensures Rewrote(Run(CallOf(q, g), [], q.where, q.setup.u + 1))
  {
  }

  // ----- the conditions on the query hold

  lemma OwnIsReady(vs: seq<Var>, x: Var, sols: set<TypeSol>, setup: Setup)
    requires x in vs
    ensures Ready(OwnCheck(x, sols), setup, FixAll(vs), Elements(vs))
  {
    var c := OwnCheck(x, sols);
    FixAllIs(vs);
    forall vis: seq<VarInfo> | IndexOf(vis, c.mapped, FixAll(vs))
      ensures forall n <- c.exprs :: Suits(n, CtxOf(c, vis, setup), setup.u + 1)
    {
      OwnSuits(x, sols, vis, setup);
    }
    hide Suits, IndexOf, FixAll;
    assert SuitsQuery(c, setup, FixAll(vs));
  }

  lemma OwnTypesRight(q: Query, g: Group, x: Var, e: Env<Var>, db: Db)
    requires e in Solutions(q.where, CallOf(q, g).types, q.vars, db) && x in q.typed
    ensures TypesRight(OwnCheck(x, g.sols), e, db)
  {
    assert x in CallOf(q, g).types && CallOf(q, g).types[x] == PossibleTypes(g.sols, x);
  }

  lemma OwningConforms(vs: seq<Var>, s: TypeSol, u: Var)
    ensures Conforms(Owning(vs, s, u), AnyTargets(s))
  {
  }

  lemma GroupIsReady(vs: seq<Var>, s: TypeSol, u: Var, select: Select, g: Group)
    requires vs != [] && (forall v <- vs :: v < u) && (g.checks == [] || g.checks == [OwnCheck(vs[0], g.sols)])
    ensures Prepared(CallOf(FixQuery(vs, s, u, select), g), Owning(vs, s, u))
  {
    var q, db := FixQuery(vs, s, u, select), Owning(vs, s, u);
    FixAllIs(vs);
    OwningConforms(vs, s, u);
    OwnIsReady(vs, vs[0], g.sols, q.setup);
    assert InOrderFor(CallOf(q, g), db);
    forall e, c | e in Solutions(q.where, CallOf(q, g).types, q.vars, db) && c in g.checks
      ensures TypesRight(c, e, db)
    {
      OwnTypesRight(q, g, vs[0], e, db);
    }
    hide Ready, Conforms, InOrderFor, TypesRight, FixAll, Solutions, AnyTargets, Owning;
  }

  // ----- the solution

  function OnlySolution(vs: seq<Var>): Env<Var> {
    map v | v in vs :: v
  }

  lemma OneSolutionOnly(vs: seq<Var>, s: TypeSol, u: Var)
    requires vs != [] && s.Keys == Elements(vs)
    ensures Solutions(FixAll(vs), map[], Elements(vs), Owning(vs, s, u)) == {OnlySolution(vs)}
    ensures TypesOf(OnlySolution(vs), Elements(vs), Owning(vs, s, u)) == s
  {
    var db, vars := Owning(vs, s, u), Elements(vs);
    forall e
      ensures e in Solutions(FixAll(vs), map[], vars, db) <==> e == OnlySolution(vs)
    {
      EnvsAreAll(vars, db.dom, e);
      if e.Keys == vars {
        FixAllMeans(vs, e, vars, db);
      }
      hide FixAll, Eval;
      if e in Solutions(FixAll(vs), map[], vars, db) {
        assert forall v <- vs :: v in e && e[v] == v;
      }
    }
  }

  // ----- the converse

  lemma GroupsAre(groups: seq<set<TypeSol>>, k: nat, vs: seq<Var>, s: TypeSol)
    requires vs != [] && k < |groups| && forall i | 0 <= i < |groups| :: forall t <- groups[i] :: t.Keys == Elements(vs)
    requires forall i, j | 0 <= i < j < |groups| :: groups[i] !! groups[j]
    requires FitsGroup(s, Group(groups[k], []), Elements(vs))
    ensures var gs := GroupsOf(groups, k, vs[0]);
            && gs[k].checks == [] && FitsGroup(s, gs[k], Elements(vs))
            && (forall i | 0 <= i < |gs| :: gs[i].sols == groups[i])
            && (forall i, j | 0 <= i < j < |gs| :: gs[i].sols !! gs[j].sols)
            && forall g <- gs :: (g.checks == [] || g.checks == [OwnCheck(vs[0], g.sols)]) &&
                 forall t <- g.sols :: t.Keys == Elements(vs)
  {
  }

  lemma NoCheckLetsThrough(q: Query, g: Group, x: Var, e: Env<Var>, db: Db)
    requires g.checks == []
    ensures LetThrough(e, q, RunAt(q, g, x), db)
  {
  }

  /** All solutions have the types `s`, the query is split as the rewriter does it, and the answer is wrong. */
  ghost predicate AnswersWrong(q: Query, gs: seq<Group>, union: seq<Branch>, runs: seq<Run>, s: TypeSol, db: Db) {
    && AllPrepared(q, gs, db) && AllMade(union, runs, q, gs)
    && (forall e <- Solutions(q.where, map[], q.vars, db) :: TypesOf(e, q.typed, db) == s)
    && SplitAnswer(q.select, union, Wraps(q.select, |gs|), db)
           != q.select.Answer(multiset(AuthorizedSolutions(q, gs, runs, db)))
  }

  lemma MisfitIsWrong(q: Query, gs: seq<Group>, union: seq<Branch>, runs: seq<Run>, k: nat, e: Env<Var>, s: TypeSol,
                      db: Db)
    requires AllPrepared(q, gs, db) && AllMade(union, runs, q, gs) && |gs| == |runs| && k < |gs|
    requires !q.select.distinct && q.select.group.None? && q.select.cut.None?
    requires Solutions(q.where, map[], q.vars, db) == {e} && LetThrough(e, q, runs[k], db)
    requires TypesOf(e, q.typed, db) == s && FitsGroup(s, gs[k], q.typed) && s !in gs[k].sols
    ensures AnswersWrong(q, gs, union, runs, s, db)
  {
    hide AllPrepared, AllMade, AuthorizedSolutions, SplitAnswer, FitsGroup, LetThrough, TypesOf, Solutions;
    assert e in Solutions(q.where, map[], q.vars, db);
    assert !NoMisfit(q, gs, runs, db);
    SplitIsRight(q, gs, union, runs, db);
  }

  lemma AllIsMade(vs: seq<Var>, q: Query, gs: seq<Group>, union: seq<Branch>, runs: seq<Run>)
    requires vs != [] && q.where == FixAll(vs) && |union| == |gs| == |runs|
    requires forall g <- gs :: g.checks == [] || g.checks == [OwnCheck(vs[0], g.sols)]
    requires forall i | 0 <= i < |gs| :: union[i] == BranchAt(q, gs[i], vs[0]) && runs[i] == RunAt(q, gs[i], vs[0])
    ensures AllMade(union, runs, q, gs)
  {
    hide Made, BranchAt, RunAt, FixAll;
    forall i | 0 <= i < |gs|
      ensures Made(union[i], runs[i], q, gs[i])
    {
      assert gs[i] in gs;
      GroupIsMade(vs, q, gs[i], vs[0]);
    }
  }

  lemma AllIsPrepared(vs: seq<Var>, s: TypeSol, u: Var, select: Select, gs: seq<Group>)
    requires vs != [] && (forall v <- vs :: v < u) && forall v <- ColumnsOf(select.terms) :: v in vs
    requires forall g <- gs :: (g.checks == [] || g.checks == [OwnCheck(vs[0], g.sols)]) &&
               forall t <- g.sols :: t.Keys == Elements(vs)
    requires forall i, j | 0 <= i < j < |gs| :: gs[i].sols !! gs[j].sols
    ensures AllPrepared(FixQuery(vs, s, u, select), gs, Owning(vs, s, u))
  {
    hide Prepared, FixAll, Owning, AnyTargets;
    forall g | g in gs
      ensures Prepared(CallOf(FixQuery(vs, s, u, select), g), Owning(vs, s, u))
    {
      GroupIsReady(vs, s, u, select, g);
    }
  }

  /** Type solutions of the variables `vs` that are grouped so that one of them, `s`, fits a group `k` that it is not
      of, when each variable is looked at alone: a query, checks and a database, in which all solutions have the types
      `s`, whose split answers wrong. */
  lemma FitIsWrong(vs: seq<Var>, u: Var, groups: seq<set<TypeSol>>, k: nat, s: TypeSol, select: Select)
    returns (q: Query, gs: seq<Group>, union: seq<Branch>, runs: seq<Run>, db: Db)
    requires vs != [] && (forall v <- vs :: v < u) && s.Keys == Elements(vs) && k < |groups|
    requires forall i | 0 <= i < |groups| :: forall t <- groups[i] :: t.Keys == Elements(vs)
    requires forall i, j | 0 <= i < j < |groups| :: groups[i] !! groups[j]
    requires FitsGroup(s, Group(groups[k], []), Elements(vs)) && s !in groups[k]
    requires !select.distinct && select.group.None? && select.cut.None? &&
               forall v <- ColumnsOf(select.terms) :: v in vs
    ensures |gs| == |groups| && forall i | 0 <= i < |gs| :: gs[i].sols == groups[i]
    ensures q.typed == Elements(vs) && q.select == select && AnswersWrong(q, gs, union, runs, s, db)
  {
    hide LetThrough, FitsGroup, TypesOf, Solutions, FixAll, Owning, OnlySolution, RunAt, BranchAt, AnyTargets, GroupAt,
           GroupsOf, AllPrepared, AllMade, AnswersWrong;
    q, gs, db := FixQuery(vs, s, u, select), GroupsOf(groups, k, vs[0]), Owning(vs, s, u);
    union := seq(|gs|, i requires 0 <= i < |gs| => BranchAt(q, gs[i], vs[0]));
    runs := seq(|gs|, i requires 0 <= i < |gs| => RunAt(q, gs[i], vs[0]));
    OneSolutionOnly(vs, s, u);
    GroupsAre(groups, k, vs, s);
    NoCheckLetsThrough(q, gs[k], vs[0], OnlySolution(vs), db);
    AllIsMade(vs, q, gs, union, runs);
    AllIsPrepared(vs, s, u, select, gs);
    MisfitIsWrong(q, gs, union, runs, k, OnlySolution(vs), s, db);
  }

  function SolsOf(groups: seq<Group>): (r: seq<set<TypeSol>>)
    ensures |r| == |groups| && forall i | 0 <= i < |r| :: r[i] == groups[i].sols
  {
    seq(|groups|, i requires 0 <= i < |groups| => groups[i].sols)
  }

  /** Where all type solutions are in the groups that they fit, splitting is right. */
  lemma RecoveredIsEnough(q: Query, groups: seq<Group>, union: seq<Branch>, runs: seq<Run>, sols: set<TypeSol>, db: Db)
    requires AllPrepared(q, groups, db) && AllMade(union, runs, q, groups) && groups != []
    requires !q.select.distinct || q.select.group.None?
    requires Recovered(groups, q.typed, sols)
    requires forall e <- Solutions(q.where, map[], q.vars, db) :: TypesOf(e, q.typed, db) in sols
    ensures SplitAnswer(q.select, union, Wraps(q.select, |groups|), db) ==
              q.select.Answer(multiset(AuthorizedSolutions(q, groups, runs, db)))
  {
    RecoveredHasNoMisfit(q, groups, runs, sols, db);
    SplitIsRight(q, groups, union, runs, db);
  }

  /** Where one of them is not, there are a query, checks and a database for which splitting is wrong. */
  lemma RecoveredIsNeeded(vs: seq<Var>, u: Var, groups: seq<Group>, sols: set<TypeSol>, select: Select)
    returns (q: Query, gs: seq<Group>, union: seq<Branch>, runs: seq<Run>, s: TypeSol, db: Db)
    requires vs != [] && (forall v <- vs :: v < u) && forall t <- sols :: t.Keys == Elements(vs)
    requires forall g <- groups :: forall t <- g.sols :: t.Keys == Elements(vs)
    requires forall i, j | 0 <= i < j < |groups| :: groups[i].sols !! groups[j].sols
    requires !Recovered(groups, Elements(vs), sols)
    requires !select.distinct && select.group.None? && select.cut.None? &&
               forall v <- ColumnsOf(select.terms) :: v in vs
    ensures |gs| == |groups| && forall i | 0 <= i < |gs| :: gs[i].sols == groups[i].sols
    ensures q.typed == Elements(vs) && q.select == select && s in sols && AnswersWrong(q, gs, union, runs, s, db)
  {
    hide AnswersWrong;
    var k: nat;
    k, s :| k < |groups| && s in sols && FitsGroup(s, groups[k], Elements(vs)) && s !in groups[k].sols;
    q, gs, union, runs, db := FitIsWrong(vs, u, SolsOf(groups), k, s, select);
  }
}
