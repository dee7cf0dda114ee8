/** The promise of the rewriter: the rows of the rewritten query are those of the query whose solution every check
    lets through, each as often as before. */
module RqlRuns {
  import opened RqlTrees
  import opened RqlSharing
  import opened RqlVisitors
  import opened RqlVisits
  import opened RqlSnippets
  import opened RqlRewriters
  import opened RqlRewritings
  import opened RqlRows
  import opened RqlIndexes
  import opened RqlStages
  import opened Wrappers

  /** A call of `rewrite`: the restriction `where`, its variables `vars` and the types that they may have, the schema,
      the new name for the user, the user's eid, and the checks. */
  datatype Call = Call(where: Node<Var>, vars: set<Var>, types: map<Var, set<EType>>, setup: Setup, user: Val,
      checks: seq<Check>)
  {
    function All(): set<Var> {
      vars + {setup.u}
    }

    /** The condition on the user. */
    function UserRel(): Node<Var> {
      Rel("eid", Ref(setup.u), Const(user))
    }
  }

  /** A run of the rewriter: its stages, and the tree that they lead to. */
  datatype Run = Run(call: Call, stages: seq<Stage>, last: Node<Var>, hi: Var)
  {
    function At(e: Env<Var>, db: Db): Site {
      Site(call.All(), Plus(e, call.setup.u, call.user), db)
    }

    /** The query that `rewrite` leaves. */
    ghost function Result(): Node<Var> {
      if NoRoots(stages) then call.where else last
    }

    ghost function ResultVars(): set<Var> {
      if UserAdded(stages) && !NoRoots(stages) then call.All() else call.vars
    }

    /** The solutions of the query that every check lets through. */
    ghost function Kept(db: Db): set<Env<Var>> {
      set e | e in Solutions(call.where, call.types, call.vars, db)
          && AllowsAll(stages, Plus(e, call.setup.u, call.user), db)
    }
  }

  /** What `rewrite` promises of its stages. */
  ghost predicate Rewrote(run: Run) {
    && FollowAll(run.stages, run.call.checks, run.call.setup)
    && Staged(run.stages, run.call.UserRel(), run.call.where, run.last, run.call.setup.u + 1, run.hi)
    && UserAdded(run.stages) == UsesUser(run.call.checks)
  }

  // ----- conditions on the call

  /** The query is in order and its new names are new; "eid" is the identity. */
  ghost predicate InOrderFor(call: Call, db: Db) {
    && Local(call.where) <= call.vars && call.setup.u !in call.vars && call.setup.u !in Vars(call.where)
    && call.types.Keys <= call.vars
    && (forall v <- Vars(call.where) :: v < call.setup.u) && (forall v <- call.vars :: v < call.setup.u)
    && call.user in db.dom && (forall a, b :: db.rel("eid", a, b) <==> a == b)
  }

  /** The values of the mapped terms have the types that the analysis of the query found. */
  ghost predicate TypesRight(c: Check, e: Env<Var>, db: Db) {
    forall m <- c.mapped :: db.typeOf(ValueOf(m.term, e)) in m.types
  }

  /** The checks suit the query; what one of them inserts does not look like a condition of the query to a later one. */
  ghost predicate AllReady(call: Call) {
    && call.setup.u !in call.vars && (forall v <- call.vars :: v < call.setup.u)
    && (forall c <- call.checks :: Ready(c, call.setup, call.where, call.vars))
    && (forall i | 0 <= i < |call.checks| - 1 :: QuietQuery(call.checks[i], call.setup, call.where))
  }

  /** All that the rewriter needs of a query, of the checks and of the database, before it starts. */
  ghost predicate Prepared(call: Call, db: Db) {
    && InOrderFor(call, db) && Conforms(db, call.setup.schema) && AllReady(call)
    && forall e <- Solutions(call.where, call.types, call.vars, db) :: forall c <- call.checks :: TypesRight(c, e, db)
  }

  // ----- what holds at each stage

  /** The index of each stage is right about the query and about the types of the solutions, and the snippets suit. */
  ghost predicate Setting(run: Run, db: Db) {
    && InOrderFor(run.call, db)
    && (forall st <- run.stages ::
            st.ctx.user == Ref(run.call.setup.u) && Ref(run.call.setup.u) !in st.ctx.revvarmap.Values)
    && WellStaged(run.stages, run.call.All())
    && Staged(run.stages, run.call.UserRel(), run.call.where, run.last, run.call.setup.u + 1, run.hi)
    && (forall e <- Solutions(run.call.where, run.call.types, run.call.vars, db) ::
          Typed(run.stages, Plus(e, run.call.setup.u, run.call.user), run.call.All(), db))
  }

  lemma StageBefore(run: Run, i: nat)
    requires Rewrote(run) && i < |run.stages| && forall st <- run.stages[..i] :: Unused(st)
    ensures var st := run.stages[i];
            && Follows(st, run.call.checks[i], run.call.setup) && run.call.checks[i] in run.call.checks
            && run.call.setup.u + 1 <= st.start && Keeps(run.call.where, st.tree, run.call.UserRel())
            && forall e <- st.log :: Told(e, st.ctx) && st.start <= e.start
  {
    var st, lo := run.stages[i], run.call.setup.u + 1;
    StagesBefore(run.stages, run.call.UserRel(), run.call.where, run.last, lo, run.hi, i);
    StagesKeep(run.stages[..i], run.call.UserRel(), run.call.where, st.tree, lo, st.start);
    var next :| InOrder(st.log, st.ctx, st.start, next);
    StartsInOrder(st.log, st.ctx, st.start, next);
  }

  lemma StageMapped(c: Check, call: Call, ctx: Ctx, where: Node<Var>, start: Var)
    requires Ready(c, call.setup, call.where, call.vars) && Indexes(ctx, c, call.setup, where)
               && call.setup.u !in call.vars
    requires (forall v <- call.vars :: v < call.setup.u) && call.setup.u + 1 <= start
    ensures Mapped(ctx, call.All(), start) && Ref(call.setup.u) !in ctx.revvarmap.Values
  {
    hide IndexOf, UsableAreConditions, SuitsQuery;
    forall x | x in ctx.revvarmap
      ensures x in ["S", "O", "X"] && ctx.revvarmap[x] != Ref(call.setup.u)
      ensures ctx.revvarmap[x].Ref? ==> ctx.revvarmap[x].v in call.vars
    {
      var i :| 0 <= i < |c.mapped| && c.mapped[i].snip == x && c.mapped[i].term == ctx.revvarmap[x];
      assert c.mapped[i] in c.mapped;
    }
  }

  lemma StageSuited(c: Check, call: Call, st: Stage, quiet: bool)
    requires Ready(c, call.setup, call.where, call.vars) && LogOf(st.log, c.exprs, st.ctx)
               && Mapped(st.ctx, call.All(), call.setup.u + 1)
    requires call.setup.u + 1 <= st.start && forall e <- st.log :: st.start <= e.start
    requires forall n <- c.exprs :: Suits(n, st.ctx, call.setup.u + 1) && (quiet ==> Quiet(n, st.ctx))
    ensures Suited(st.log, st.ctx, st.start) && (quiet ==> forall e <- st.log :: Quiet(e.snip, st.ctx))
  {
    hide Ready, Mapped, Suits, Quiet, Told;
    forall j | 0 <= j < |st.log|
      ensures Suits(st.log[j].snip, st.ctx, st.start) && (quiet ==> Quiet(st.log[j].snip, st.ctx))
    {
      assert c.exprs[j] in c.exprs && Suits(c.exprs[j], st.ctx, call.setup.u + 1);
      SuitsLater(c.exprs[j], st.ctx, call.All(), call.setup.u + 1, st.start);
    }
  }

  lemma StageReadyAt(c: Check, call: Call, st: Stage, quiet: bool)
    requires Ready(c, call.setup, call.where, call.vars) && call.setup.u !in call.vars
               && (forall v <- call.vars :: v < call.setup.u)
    requires Keeps(call.where, st.tree, call.UserRel()) && Indexes(st.ctx, c, call.setup, st.tree)
    requires LogOf(st.log, c.exprs, st.ctx) && call.setup.u + 1 <= st.start && forall e <- st.log :: st.start <= e.start
    requires quiet ==> QuietQuery(c, call.setup, call.where)
    ensures Mapped(st.ctx, call.All(), st.start) && Indexed(st.ctx, st.tree) && Suited(st.log, st.ctx, st.start)
    ensures Ref(call.setup.u) !in st.ctx.revvarmap.Values && (quiet ==> forall e <- st.log :: Quiet(e.snip, st.ctx))
  {
    hide Ready, Keeps, Indexed, Mapped, Suits, Suited, Quiet, IndexOf, QuietQuery, LogOf;
    StageMapped(c, call, st.ctx, st.tree, st.start);
    StageIndexed(c, call.setup, call.where, st.tree, call.user, call.vars, st.ctx);
    StageSuits(c, call.setup, call.where, st.tree, call.user, call.vars, st.ctx);
    StageMapped(c, call, st.ctx, st.tree, call.setup.u + 1);
    StageSuited(c, call, st, quiet);
  }

  /** At each stage, the index is right and the snippets suit, because they did before the call. */
  lemma StageIsReady(run: Run, i: nat)
    requires Rewrote(run) && i < |run.stages| && AllReady(run.call) && forall st <- run.stages[..i] :: Unused(st)
    ensures var st := run.stages[i];
            && Mapped(st.ctx, run.call.All(), st.start) && Indexed(st.ctx, st.tree) && Suited(st.log, st.ctx, st.start)
            && st.ctx.user == Ref(run.call.setup.u) && Ref(run.call.setup.u) !in st.ctx.revvarmap.Values
            && (i < |run.stages| - 1 ==> forall e <- st.log :: Quiet(e.snip, st.ctx))
  {
    hide Ready, Keeps, Indexed, Mapped, Suited, Quiet, IndexOf, QuietQuery, Unused, LogOf, Staged, UserAdded, UsesUser;
    StageBefore(run, i);
    StageReadyAt(run.call.checks[i], run.call, run.stages[i], i < |run.stages| - 1);
  }

  /** What the stages before insert has no relations that may be used: what they insert is quiet, because the snippets
      were before the call. */
  lemma {:induction false} StagesUnused(run: Run, i: nat)
    requires Rewrote(run) && i < |run.stages| && AllReady(run.call)
    ensures forall st <- run.stages[..i] :: Unused(st)
    decreases i
  {
    hide Rewrote, AllReady, Indexed, Quiet, Mapped, Suited, Unused;
    if i > 0 {
      StagesUnused(run, i - 1);
      StageIsReady(run, i - 1);
      var st := run.stages[i - 1];
      StageUnused(st, run.call.All());
      assert run.stages[..i] == run.stages[..i - 1] + [st];
    }
  }

  /** A solution of the query has the types that the index of a later query says. */
  lemma StageIsTyped(call: Call, c: Check, ctx: Ctx, where: Node<Var>, db: Db, e: Env<Var>)
    requires Indexes(ctx, c, call.setup, where) && Prepared(call, db) && c in call.checks
    requires e in Solutions(call.where, call.types, call.vars, db)
    ensures Conforms(db, ctx.schema) && Values(Plus(e, call.setup.u, call.user), call.All(), ctx, db)
  {
    assert TypesRight(c, e, db) && Ready(c, call.setup, call.where, call.vars);
    EnvsGive(call.vars, db.dom);
    hide TypesRight, UsableAreConditions, SuitsQuery, IndexOf, Conforms, Local;
    EntriesTyped(c, ctx.varinfos, where, call.vars, call.setup.u, call.user, e, db);
  }

  lemma EntriesTyped(c: Check, vis: seq<VarInfo>, where: Node<Var>, vars: set<Var>, u: Var, user: Val, e: Env<Var>,
                     db: Db)
    requires IndexOf(vis, c.mapped, where) && TypesRight(c, e, db) && u !in vars
    requires forall m <- c.mapped :: m.term.Ref? ==> m.term.v in vars
    ensures forall vi <- vis :: db.typeOf(ValueOf(vi.term, Plus(e, u, user))) in vi.possibleTypes
  {
    hide Lists, RelationsAbout;
    forall j | 0 <= j < |vis|
      ensures db.typeOf(ValueOf(vis[j].term, Plus(e, u, user))) in vis[j].possibleTypes
    {
      assert ListsFor(vis[j], c.mapped[j], where) && c.mapped[j] in c.mapped;
    }
  }

  lemma StagesAreReady(run: Run, db: Db)
    requires Prepared(run.call, db) && Rewrote(run)
    ensures WellStaged(run.stages, run.call.All())
    ensures forall st <- run.stages :: st.ctx.user == Ref(run.call.setup.u)
              && Ref(run.call.setup.u) !in st.ctx.revvarmap.Values
  {
    assert |run.stages| == |run.call.checks|;
    hide Rewrote, Mapped, Indexed, Suited, Conforms, Solutions, AllReady, TypesRight, Unused;
    forall i | 0 <= i < |run.stages|
      ensures var st := run.stages[i];
              && Mapped(st.ctx, run.call.All(), st.start) && Indexed(st.ctx, st.tree)
                  && Suited(st.log, st.ctx, st.start)
              && st.ctx.user == Ref(run.call.setup.u) && Ref(run.call.setup.u) !in st.ctx.revvarmap.Values
    {
      StagesUnused(run, i);
      StageIsReady(run, i);
    }
  }

  lemma SolutionIsTyped(run: Run, db: Db, e: Env<Var>)
    requires Prepared(run.call, db) && Rewrote(run) && e in Solutions(run.call.where, run.call.types, run.call.vars, db)
    ensures Typed(run.stages, Plus(e, run.call.setup.u, run.call.user), run.call.All(), db)
  {
    assert |run.stages| == |run.call.checks|;
    assert AllReady(run.call);
    hide Prepared, Rewrote, Conforms, Values, Solutions, Indexes, Keeps, Told, LogOf, AllReady, Unused;
    forall i | 0 <= i < |run.stages|
      ensures var st := run.stages[i];
              && Conforms(db, st.ctx.schema)
              && Values(Plus(e, run.call.setup.u, run.call.user), run.call.All(), st.ctx, db)
    {
      StagesUnused(run, i);
      StageBefore(run, i);
      StageIsTyped(run.call, run.call.checks[i], run.stages[i].ctx, run.stages[i].tree, db, e);
    }
  }

  /** The conditions on the call are enough for every stage of the run. */
  lemma SettingHolds(run: Run, db: Db)
    requires Prepared(run.call, db) && Rewrote(run)
    ensures Setting(run, db)
  {
    StagesAreReady(run, db);
    forall e | e in Solutions(run.call.where, run.call.types, run.call.vars, db)
      ensures Typed(run.stages, Plus(e, run.call.setup.u, run.call.user), run.call.All(), db)
    {
      SolutionIsTyped(run, db, e);
    }
    hide WellStaged, Typed, FollowAll, UserAdded, UsesUser, Staged, Solutions, Conforms, TypesRight, AllReady;
  }

  function Plus(e: Env<Var>, u: Var, user: Val): Env<Var> {
    e[u := user]
  }

  function Minus(e: Env<Var>, u: Var): Env<Var> {
    e - {u}
  }

  lemma FirstMeans(first: Node<Var>, types: map<Var, set<EType>>, vars: set<Var>, u: Var, user: Val, db: Db,
                   e: Env<Var>)
    requires Local(first) <= vars && u !in vars && u !in Vars(first) && Gives(e, vars, db.dom) && TypesFit(e, types, db)
    ensures Eval(first, Plus(e, u, user), vars + {u}, db) <==> e in Solutions(first, types, vars, db)
  {
    EnvsAreAll(vars, db.dom, e);
    EvalAgrees(first, e, Plus(e, u, user), vars, db);
    OneMoreBound(first, Plus(e, u, user), vars, u, db);
  }

  lemma AtUser(run: Run, db: Db, e: Env<Var>)
    requires Setting(run, db) && Gives(e, run.call.vars, db.dom) && TypesFit(e, run.call.types, db)
    ensures AtStages(run.stages, run.call.UserRel(), run.call.where, run.last, run.call.setup.u + 1, run.hi,
              run.At(e, db))
  {
    hide Staged, WellStaged, Typed, Gives, TypesFit;
    FirstMeans(run.call.where, run.call.types, run.call.vars, run.call.setup.u, run.call.user, db, e);
  }

  lemma LastMeans(run: Run, db: Db, e: Env<Var>)
    requires Setting(run, db) && Gives(e, run.call.vars, db.dom) && TypesFit(e, run.call.types, db)
    ensures Eval(run.last, Plus(e, run.call.setup.u, run.call.user), run.call.All(), db) <==> e in run.Kept(db)
  {
    AtUser(run, db, e);
    FirstMeans(run.call.where, run.call.types, run.call.vars, run.call.setup.u, run.call.user, db, e);
    hide Setting, Gives, TypesFit, Solutions;
    StagesMean(run.stages, run.call.UserRel(), run.call.where, run.last, run.call.setup.u + 1, run.hi, run.At(e, db));
  }

  // ----- a query that needs no condition on the user

  ghost predicate NoUser(stages: seq<Stage>, u: Var) {
    forall st <- stages :: st.when == Never && Ref(u) !in st.ctx.revvarmap.Values && forall e <- st.log ::
        "U" !in Vars(e.snip)
  }

  lemma RootWithoutUser(e: Entry, ctx: Ctx, where: Node<Var>, base: set<Var>, u: Var)
    requires Mapped(ctx, base, e.start) && Indexed(ctx, where) && Local(where) <= base
               && Insertable(e.snip, ctx, e.start)
    requires "U" !in Vars(e.snip) && Ref(u) !in ctx.revvarmap.Values && u !in Vars(where) && u < e.start
    requires Inserted(e.snip, ctx, e.start).Some?
    ensures u !in Vars(Root(e, ctx))
  {
    var fin := StateAfter(e.snip, ctx, e.start);
    VisitIsRewriting(e.snip, ctx, base, e.start);
    SharedInScope(e.snip, ctx, where, base, e.start);
    if u in Vars(Root(e, ctx)) {
      ImageVars(e.snip, u, SharingOf(e.snip, fin, ctx));
    }
  }

  lemma {:induction false} RootsWithoutUser(log: seq<Entry>, ctx: Ctx, where: Node<Var>, base: set<Var>, n0: Var,
                                            u: Var)
    requires Mapped(ctx, base, n0) && Indexed(ctx, where) && Local(where) <= base && Suited(log, ctx, n0)
    requires (forall e <- log :: "U" !in Vars(e.snip)) && Ref(u) !in ctx.revvarmap.Values && u !in Vars(where) && u < n0
    ensures forall r: Node<Var> <- Roots(log, ctx) :: u !in Vars(r)
  {
    if log != [] {
      var e := log[|log| - 1];
      RootsWithoutUser(log[..|log| - 1], ctx, where, base, n0, u);
      LastEntry(log, ctx);
      if e.verdict == Accepted {
        SuitsLater(e.snip, ctx, base, n0, e.start);
        RootWithoutUser(e, ctx, where, base, u);
      }
    }
  }

  lemma {:induction false} ChainWithout(first: Node<Var>, rest: seq<Node<Var>>, u: Var)
    requires u !in Vars(first) && forall r: Node<Var> <- rest :: u !in Vars(r)
    ensures u !in Vars(Chain(first, rest))
  {
    if rest != [] {
      ChainWithout(first, rest[1..], u);
    }
  }

  lemma {:induction false} StagesWithoutUser(stages: seq<Stage>, user: Node<Var>, first: Node<Var>, last: Node<Var>,
                                             lo: Var, hi: Var, base: set<Var>, u: Var)
    requires Staged(stages, user, first, last, lo, hi) && WellStaged(stages, base) && NoUser(stages, u)
    requires Local(first) <= base && Vars(user) <= base && (forall v <- Vars(first) :: v < lo)
               && (forall v <- base :: v < lo)
    requires u !in Vars(first) && u < lo
    ensures u !in Vars(last)
  {
    if stages != [] {
      var st := stages[|stages| - 1];
      var before := stages[..|stages| - 1];
      assert st in stages && forall d <- before :: d in stages;
      StagesWithoutUser(before, user, first, st.tree, lo, st.start, base, u);
      StagesName(before, user, first, st.tree, lo, st.start, base);
      RootsWithoutUser(st.log, st.ctx, st.tree, base, st.start, u);
      var roots := Roots(st.log, st.ctx);
      if roots != [] {
        ChainWithout(roots[0], roots[1..], u);
      }
    }
  }

  /** Once added, the condition on the user stays. */
  lemma {:induction false} StagesGuard(stages: seq<Stage>, user: Node<Var>, first: Node<Var>, last: Node<Var>, lo: Var,
                                       hi: Var, f: Env<Var>, base: set<Var>, db: Db)
    requires Staged(stages, user, first, last, lo, hi) && UserAdded(stages) && Eval(last, f, base, db)
    ensures Eval(user, f, base, db)
  {
    var st := stages[|stages| - 1];
    var before := stages[..|stages| - 1];
    ShapeMeans(st.tree, user, Roots(st.log, st.ctx), st.when, f, base, db);
    if st.when == Never {
      assert forall d :: d in stages <==> d in before || d == st;
      StagesGuard(before, user, first, st.tree, lo, st.start, f, base, db);
    }
  }

  // ----- solutions

  lemma UserIsUser(run: Run, db: Db, f: Env<Var>)
    requires Setting(run, db) && UserAdded(run.stages) && run.call.setup.u in f && Eval(run.last, f, run.call.All(), db)
    ensures f[run.call.setup.u] == run.call.user
  {
    StagesGuard(run.stages, run.call.UserRel(), run.call.where, run.last, run.call.setup.u + 1, run.hi, f,
        run.call.All(), db);
  }

  /** The rewritten query has one solution for each solution that is kept. */
  lemma SolutionsWithUser(run: Run, db: Db, e': Env<Var>)
    requires Setting(run, db) && UserAdded(run.stages)
    ensures e' in Solutions(run.last, run.call.types, run.call.All(), db) <==>
            run.call.setup.u in e' && e'[run.call.setup.u] == run.call.user
                && Minus(e', run.call.setup.u) in run.Kept(db)
  {
    var u := run.call.setup.u;
    assert u !in run.call.vars && run.call.types.Keys <= run.call.vars;
    hide Setting, AllowsAll, UserAdded;
    EnvsAreAll(run.call.All(), db.dom, e');
    EnvsAreAll(run.call.vars, db.dom, Minus(e', u));
    if e' in Solutions(run.last, run.call.types, run.call.All(), db) {
      UserIsUser(run, db, e');
    }
    if u in e' && e'[u] == run.call.user && Gives(Minus(e', u), run.call.vars, db.dom)
        && TypesFit(Minus(e', u), run.call.types, db) {
      assert e' == Plus(Minus(e', u), u, run.call.user);
      LastMeans(run, db, Minus(e', u));
    }
  }

  lemma LastWithoutUser(run: Run, db: Db)
    requires Setting(run, db) && NoUser(run.stages, run.call.setup.u)
    ensures Local(run.last) <= run.call.vars && run.call.setup.u !in Vars(run.last)
  {
    hide WellStaged, Typed, Staged, NoUser, Solutions;
    StagesWithoutUser(run.stages, run.call.UserRel(), run.call.where, run.last, run.call.setup.u + 1, run.hi,
        run.call.All(), run.call.setup.u);
    StagesName(run.stages, run.call.UserRel(), run.call.where, run.last, run.call.setup.u + 1, run.hi, run.call.All());
  }

  lemma SolutionWithoutUser(run: Run, db: Db, e: Env<Var>)
    requires Setting(run, db) && NoUser(run.stages, run.call.setup.u)
    ensures e in Solutions(run.last, run.call.types, run.call.vars, db) <==> e in run.Kept(db)
  {
    EnvsAreAll(run.call.vars, db.dom, e);
    LastWithoutUser(run, db);
    if Gives(e, run.call.vars, db.dom) && TypesFit(e, run.call.types, db) {
      assert run.call.setup.u !in run.call.vars;
      hide Setting, NoUser, Gives, AllowsAll, Eval, Local, Vars, TypesFit;
      FirstMeans(run.last, run.call.types, run.call.vars, run.call.setup.u, run.call.user, db, e);
      LastMeans(run, db, e);
    }
  }

  // ----- rows

  /** As many elements, when one set is the other with a value for one more variable. */
  lemma {:induction false} SameSize(a: set<Env<Var>>, b: set<Env<Var>>, u: Var, user: Val)
    requires forall e <- b :: Plus(e, u, user) in a && Minus(Plus(e, u, user), u) == e
    requires forall e' <- a :: Minus(e', u) in b && Plus(Minus(e', u), u, user) == e'
    ensures |a| == |b|
    decreases |b|
  {
    hide Plus, Minus;
    if b == {} {
      assert a == {};
    } else {
      var e :| e in b;
      SameSize(a - {Plus(e, u, user)}, b - {e}, u, user);
    }
  }

  lemma RowsWithUser(selection: seq<Var>, e: Env<Var>, u: Var, user: Val)
    requires u !in selection
    ensures Row(selection, Plus(e, u, user)) == Row(selection, e)
    ensures Row(selection, Minus(e, u)) == Row(selection, e)
  {
  }

  lemma KeptLacksUser(run: Run, db: Db, e: Env<Var>)
    requires run.call.setup.u !in run.call.vars && e in run.Kept(db)
    ensures run.call.setup.u !in e
  {
    EnvsGive(run.call.vars, db.dom);
  }

  lemma ToRewritten(run: Run, db: Db, e: Env<Var>)
    requires Setting(run, db) && UserAdded(run.stages) && e in run.Kept(db)
    ensures Plus(e, run.call.setup.u, run.call.user) in Solutions(run.last, run.call.types, run.call.All(), db)
    ensures Minus(Plus(e, run.call.setup.u, run.call.user), run.call.setup.u) == e
  {
    KeptLacksUser(run, db, e);
    hide Setting, Solutions, UserAdded;
    assert Minus(Plus(e, run.call.setup.u, run.call.user), run.call.setup.u) == e;
    SolutionsWithUser(run, db, Plus(e, run.call.setup.u, run.call.user));
  }

  lemma FromRewritten(run: Run, db: Db, e': Env<Var>)
    requires Setting(run, db) && UserAdded(run.stages) && e' in Solutions(run.last, run.call.types, run.call.All(), db)
    ensures Minus(e', run.call.setup.u) in run.Kept(db) && Plus(Minus(e', run.call.setup.u), run.call.setup.u,
              run.call.user) == e'
  {
    hide Setting, UserAdded;
    SolutionsWithUser(run, db, e');
  }

  lemma CountsWithUser(run: Run, db: Db, selection: seq<Var>, row: seq<Val>)
    requires Setting(run, db) && UserAdded(run.stages) && run.call.setup.u !in selection
    ensures Count(row, selection, Solutions(run.last, run.call.types, run.call.All(), db))
              == Count(row, selection, run.Kept(db))
  {
    hide Setting, UserAdded, Solutions, Plus, Minus, Row;
    var sols, kept := Solutions(run.last, run.call.types, run.call.All(), db), run.Kept(db);
    var a := set e | e in sols && Row(selection, e) == row;
    var b := set e | e in kept && Row(selection, e) == row;
    forall e | e in b
      ensures Plus(e, run.call.setup.u, run.call.user) in a
                && Minus(Plus(e, run.call.setup.u, run.call.user), run.call.setup.u) == e
    {
      ToRewritten(run, db, e);
      RowsWithUser(selection, e, run.call.setup.u, run.call.user);
    }
    forall e' | e' in a
      ensures Minus(e', run.call.setup.u) in b && Plus(Minus(e', run.call.setup.u), run.call.setup.u, run.call.user)
                == e'
    {
      FromRewritten(run, db, e');
      RowsWithUser(selection, e', run.call.setup.u, run.call.user);
    }
    SameSize(a, b, run.call.setup.u, run.call.user);
  }

  lemma CountsKept(run: Run, db: Db, selection: seq<Var>, row: seq<Val>)
    requires Setting(run, db) && (UserAdded(run.stages) || NoUser(run.stages, run.call.setup.u))
               && run.call.setup.u !in selection
    ensures Count(row, selection, Solutions(run.Result(), run.call.types, run.ResultVars(), db))
              == Count(row, selection, run.Kept(db))
  {
    if NoRoots(run.stages) {
      assert forall f :: AllowsAll(run.stages, f, db);
      assert run.Kept(db) == Solutions(run.call.where, run.call.types, run.call.vars, db);
    } else if UserAdded(run.stages) {
      CountsWithUser(run, db, selection, row);
    } else {
      forall e
        ensures e in Solutions(run.last, run.call.types, run.call.vars, db) <==> e in run.Kept(db)
      {
        SolutionWithoutUser(run, db, e);
      }
      assert Solutions(run.last, run.call.types, run.call.vars, db) == run.Kept(db);
    }
  }

  lemma RowsAreKept(run: Run, db: Db, selection: seq<Var>)
    requires Setting(run, db) && (UserAdded(run.stages) || NoUser(run.stages, run.call.setup.u))
               && run.call.setup.u !in selection
    ensures RowsOf(selection, Solutions(run.Result(), run.call.types, run.ResultVars(), db))
              == RowsOf(selection, run.Kept(db))
  {
    var sols := Solutions(run.Result(), run.call.types, run.ResultVars(), db);
    forall row
      ensures RowsOf(selection, sols)[row] == RowsOf(selection, run.Kept(db))[row]
    {
      CountsKept(run, db, selection, row);
      RowsAreCounted(selection, sols, row);
      RowsAreCounted(selection, run.Kept(db), row);
    }
  }

  lemma NoUserUnlessUsed(run: Run, db: Db)
    requires Rewrote(run) && Setting(run, db)
    ensures UserAdded(run.stages) || NoUser(run.stages, run.call.setup.u)
  {
    if !UserAdded(run.stages) {
      forall st, e | st in run.stages && e in st.log
        ensures "U" !in Vars(e.snip)
      {
        var i :| 0 <= i < |run.stages| && run.stages[i] == st;
        assert Follows(st, run.call.checks[i], run.call.setup);
        var j :| 0 <= j < |st.log| && st.log[j] == e;
        assert e.snip == run.call.checks[i].exprs[j] && run.call.checks[i].exprs[j] in run.call.checks[i].exprs;
      }
    }
  }

  /** Each row of the query comes up in the rewritten query as often as in the solutions that every check lets through.
      It never comes up more often, and nothing new comes up. */
  lemma RewrittenRows(run: Run, db: Db, selection: seq<Var>)
    requires Prepared(run.call, db) && Rewrote(run) && run.call.setup.u !in selection
    ensures RowsOf(selection, Solutions(run.Result(), run.call.types, run.ResultVars(), db))
              == RowsOf(selection, run.Kept(db))
  {
    SettingHolds(run, db);
    NoUserUnlessUsed(run, db);
    hide Prepared, Rewrote, Setting, UserAdded, NoUser, Solutions;
    RowsAreKept(run, db, selection);
  }

  // ----- in terms of the snippets that were not rejected

  ghost predicate GrantedAll(stages: seq<Stage>, f: Env<Var>, db: Db) {
    forall st <- stages :: Granted(st.log, st.ctx, f, db)
  }

  /** Nothing was left of some of the accepted snippets, but not of others. */
  predicate Mixed(log: seq<Entry>) {
    (exists e <- log :: e.verdict == Collapsed) && (exists e <- log :: e.verdict == Accepted)
  }

  lemma StageGrants(st: Stage, at: Site)
    requires Fits(st.ctx, st.tree, st.start, at) && Suited(st.log, st.ctx, st.start)
    requires exists e <- st.log :: e.verdict != Rejected
    ensures Allows(st.log, st.ctx, at.f0, at.db) ==> Granted(st.log, st.ctx, at.f0, at.db)
    ensures Granted(st.log, st.ctx, at.f0, at.db) && !Mixed(st.log) ==> Allows(st.log, st.ctx, at.f0, at.db)
  {
    AllowsWhatIsGranted(st.log, st.ctx, st.tree, st.start, at);
  }

  /** A solution that the stages before let through is a solution of the query that the last stage starts from. */
  lemma LastStageFits(stages: seq<Stage>, user: Node<Var>, first: Node<Var>, last: Node<Var>, lo: Var, hi: Var,
                      at: Site)
    requires AtStages(stages, user, first, last, lo, hi, at) && Eval(first, at.f0, at.base, at.db) && stages != []
    ensures var st, before := stages[|stages| - 1], stages[..|stages| - 1];
            && AtStages(before, user, first, st.tree, lo, st.start, at) && Suited(st.log, st.ctx, st.start)
            && (AllowsAll(before, at.f0, at.db) ==> Fits(st.ctx, st.tree, st.start, at))
  {
    var st, before := stages[|stages| - 1], stages[..|stages| - 1];
    assert forall d :: d in stages <==> d in before || d == st;
    StagesMean(before, user, first, st.tree, lo, st.start, at);
    StagesName(before, user, first, st.tree, lo, st.start, at.base);
  }

  lemma {:induction false} AllowedIsGranted(stages: seq<Stage>, user: Node<Var>, first: Node<Var>, last: Node<Var>,
                                            lo: Var, hi: Var, at: Site)
    requires AtStages(stages, user, first, last, lo, hi, at) && Eval(first, at.f0, at.base, at.db)
    requires forall st <- stages :: exists e <- st.log :: e.verdict != Rejected
    ensures AllowsAll(stages, at.f0, at.db) ==> GrantedAll(stages, at.f0, at.db)
    ensures GrantedAll(stages, at.f0, at.db) && (forall st <- stages :: !Mixed(st.log)) ==>
              AllowsAll(stages, at.f0, at.db)
  {
    if stages != [] {
      var st, before := stages[|stages| - 1], stages[..|stages| - 1];
      LastStageFits(stages, user, first, last, lo, hi, at);
      hide AtStages, Eval, Suited, Fits, Allows, Granted, Mixed;
      assert forall d :: d in stages <==> d in before || d == st;
      AllowedIsGranted(before, user, first, st.tree, lo, st.start, at);
      if AllowsAll(before, at.f0, at.db) {
        StageGrants(st, at);
      }
    }
  }

  lemma SomeNotRejected(run: Run)
    requires Rewrote(run)
    ensures forall st <- run.stages :: exists d <- st.log :: d.verdict != Rejected
  {
    forall i | 0 <= i < |run.stages|
      ensures exists d <- run.stages[i].log :: d.verdict != Rejected
    {
      assert Follows(run.stages[i], run.call.checks[i], run.call.setup);
    }
  }

  /** A solution is kept only where one of the snippets of each variable holds. Where no variable has snippets that
      were inserted and others that collapsed, every such solution is kept. */
  lemma KeptIsGranted(run: Run, db: Db, e: Env<Var>)
    requires Prepared(run.call, db) && Rewrote(run) && e in Solutions(run.call.where, run.call.types, run.call.vars, db)
    ensures e in run.Kept(db) ==> GrantedAll(run.stages, Plus(e, run.call.setup.u, run.call.user), db)
    ensures GrantedAll(run.stages, Plus(e, run.call.setup.u, run.call.user), db)
              && (forall st <- run.stages :: !Mixed(st.log)) ==>
              e in run.Kept(db)
  {
    SettingHolds(run, db);
    SomeNotRejected(run);
    EnvsGive(run.call.vars, db.dom);
    AtUser(run, db, e);
    FirstMeans(run.call.where, run.call.types, run.call.vars, run.call.setup.u, run.call.user, db, e);
    hide Setting, Prepared, Rewrote;
    AllowedIsGranted(run.stages, run.call.UserRel(), run.call.where, run.last, run.call.setup.u + 1, run.hi,
        run.At(e, db));
  }
}
