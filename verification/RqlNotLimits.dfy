/** Two checks of which the second takes a relation that the first has inserted, under a `Not`, for a condition of the
    query. */
module RqlNotLimits {
  import opened RqlTrees
  import opened RqlSharing
  import opened RqlVisitors
  import opened RqlVisits
  import opened RqlSnippets
  import opened RqlRewriters
  import opened RqlRows
  import opened RqlIndexes
  import opened RqlRewritings
  import opened RqlStages
  import opened RqlRuns
  import opened RqlLimits
  import opened Wrappers

  /** What the mapped variable is related to must not have a `w` that belongs to the user. */
  function Barred(w: SnipVar): Node<SnipVar> {
    And(Rel("r", Ref("X"), Ref("Y")), Not(And(Rel("t", Ref("Y"), Ref(w)), Rel("s", Ref(w), Ref("U")))))
  }

  /** The mapped variable must have something that belongs to the user. */
  const HAS: Node<SnipVar> := And(Rel("t", Ref("X"), Ref("B")), Rel("s", Ref("B"), Ref("U")))

  const HAS_CHECK: Check := Check([Mapping("X", Ref(1), {"T"})], [HAS])

  function Plain(): Setup {
    Setup(2, Single())
  }

  function BarredCheck(w: SnipVar): Check {
    Check([Mapping("X", Ref(0), {"T"})], [Barred(w)])
  }

  function BarredCall(w: SnipVar): Call {
    Call(RELATION, {0, 1}, map[], Plain(), 2, [BarredCheck(w), HAS_CHECK])
  }

  /** The name that "A" gets, and the one that "X" has. */
  function NameOf(w: SnipVar): Var {
    if w == "X" then 0 else 3
  }

  function NegatedRelation(w: SnipVar): Node<Var> {
    Rel("t", Ref(1), Ref(NameOf(w)))
  }

  function Belongs(w: SnipVar): Node<Var> {
    Rel("s", Ref(NameOf(w)), Ref(2))
  }

  function BarredInserted(w: SnipVar): Node<Var> {
    Not(And(NegatedRelation(w), Belongs(w)))
  }

  function BarredTree(w: SnipVar): Node<Var> {
    And(And(RELATION, BarredCall(w).UserRel()), BarredInserted(w))
  }

  function BarredCtx(w: SnipVar): Ctx {
    CtxOf(BarredCheck(w), [InfoWithRelation()], Plain())
  }

  /** The index of the query after the first check. */
  function HasCtx(w: SnipVar): Ctx {
    CtxOf(HAS_CHECK, [VarInfo(Ref(1), {"T"}, map["t" := [OrigRel(NegatedRelation(w), true, false)]],
                              map["r" := [OrigRel(RELATION, true, false)]])], Plain())
  }

  function BarredStage(w: SnipVar): Stage {
    Stage(RELATION, BarredCtx(w), [Entry(Barred(w), 3, Accepted)], Before, 3)
  }

  function HasStart(w: SnipVar): Var {
    StateAfter(Barred(w), BarredCtx(w), 3).next
  }

  function HasStage(w: SnipVar): Stage {
    Stage(BarredTree(w), HasCtx(w), [Entry(HAS, HasStart(w), Accepted)], Never, HasStart(w))
  }

  function BarredRun(w: SnipVar): Run {
    Run(BarredCall(w), [BarredStage(w), HasStage(w)], And(BarredTree(w), Exists(Belongs(w))),
        StateAfter(HAS, HasCtx(w), HasStart(w)).next)
  }

  lemma BarredIndex(w: SnipVar)
    ensures IndexOf([InfoWithRelation()], BarredCheck(w).mapped, RELATION)
    ensures BarredCtx(w).Fixed() == map["X" := Ref(0), "U" := Ref(2)] && BarredCtx(w).revvarmap == map["X" := Ref(0)]
  {
    assert RelationsAbout(RELATION, AsObject, Ref(0)) == {OrigRel(RELATION, true, false)};
    assert RelationsAbout(RELATION, AsSubject, Ref(0)) == {};
    assert Revvarmap(BarredCheck(w).mapped) == map["X" := Ref(0)];
  }

  /** Only the relation "r" is shared. */
  ghost predicate SharesR(w: SnipVar, ctx: Ctx) {
    && ctx.revvarmap == map["X" := Ref(0)] && ctx.user == Ref(2)
    && ShareOf(Barred(w).l, false, ctx) == Some(Share("X", "Y", AsObject, Ref(0), {"T"}, RELATION))
    && ShareOf(Barred(w).r.c.l, false, ctx) == None && ShareOf(Barred(w).r.c.r, false, ctx) == None
  }

  lemma BarredShares(w: SnipVar, vis: seq<VarInfo>)
    requires (w == "X" || w == "A") && IndexOf(vis, BarredCheck(w).mapped, RELATION)
    ensures SharesR(w, CtxOf(BarredCheck(w), vis, Plain()))
  {
    var orel := OrigRel(RELATION, true, false);
    BarredIndex(w);
    assert RelationsAbout(RELATION, AsObject, Ref(0)) == {orel} && RelationsAbout(RELATION, AsSubject, Ref(0)) == {};
    assert ListsFor(vis[0], BarredCheck(w).mapped[0], RELATION);
    assert orel in vis[0].lhsRels["r"];
    assert Serves("r", AsObject, vis[0], Single()) && !Serves("t", AsSubject, vis[0], Single());
    assert vis[1..] == [] && MayBeSharedWith("t", AsSubject, vis, Single()) == None;
    hide Serves, Lists, RelationsAbout, CompatibleRelation;
  }

  lemma BarredDrops(w: SnipVar, ctx: Ctx)
    requires (w == "X" || w == "A") && SharesR(w, ctx)
    ensures Drops(Barred(w), false, ctx) == {Barred(w).l} && Shared(Barred(w), false, ctx) == {"Y"}
    ensures SharesOnce(Barred(w), false, ctx, 3) && DropsWell(Barred(w), {Barred(w).l})
  {
    hide ShareOf;
    var part := Barred(w).r.c;
    assert Barred(w).l != part.l && Barred(w).l != part.r;
    assert Drops(part, true, ctx) == {} && Shared(part, true, ctx) == {} && SharesOnce(part, true, ctx, 3);
    assert Drops(Barred(w).r, false, ctx) == {} && Shared(Barred(w).r, false, ctx) == {};
    assert SharesOnce(Barred(w).l, false, ctx, 3) && SharesOnce(Barred(w).r, false, ctx, 3);
    assert DropsNothing(part, {Barred(w).l});
  }

  lemma PartIsBuilt(w: SnipVar, ctx: Ctx, st: VState)
    requires (w == "X" || w == "A") && SharesR(w, ctx) && st == VState(map["Y" := 1], 3, map[], false)
    ensures var (m, st') := Visit(Barred(w).r.c, true, st, ctx);
            m == Some(And(NegatedRelation(w), Belongs(w))) && st'.subst == map[]
  {
    hide ShareOf;
    var part := Barred(w).r.c;
    var (t, st1) := Visit(part.l, false, st, ctx);
    assert t == Some(NegatedRelation(w)) && st1.subst == map[]
             && (w == "A" ==> st1.rewritten == map["Y" := 1, "A" := 3]);
    var (b, st2) := Visit(part.r, false, st1, ctx);
    assert b == Some(Belongs(w)) && st2.subst == map[];
  }

  lemma BarredIsBuilt(w: SnipVar, ctx: Ctx)
    requires (w == "X" || w == "A") && SharesR(w, ctx)
    ensures Inserted(Barred(w), ctx, 3) == Some(BarredInserted(w))
  {
    var st := VState(map["Y" := 1], 3, map[], false);
    assert Visit(Barred(w).l, false, Start(3), ctx) == (None, st);
    PartIsBuilt(w, ctx, st);
    hide ShareOf, SharesR, NegatedRelation, Belongs;
    var m, st' := Visit(Barred(w).r.c, true, st, ctx).0, Visit(Barred(w).r.c, true, st, ctx).1;
    assert Visit(Barred(w).r, false, st, ctx) == (Some(BarredInserted(w)), st');
    assert Visit(Barred(w), false, Start(3), ctx) == (Some(BarredInserted(w)), st');
    NothingReplaced(BarredInserted(w));
  }

  lemma {:induction false} NothingReplaced(n: Node<Var>)
    ensures SubstNode(n, map[]) == n
  {
    match n
    case And(l, r) => NothingReplaced(l); NothingReplaced(r);
    case Or(l, r) => NothingReplaced(l); NothingReplaced(r);
    case Not(c) => NothingReplaced(c);
    case Exists(c) => NothingReplaced(c);
    case Rel(_, _, _) =>
  }

  lemma BarredIsNoisy(w: SnipVar, ctx: Ctx)
    requires (w == "X" || w == "A") && SharesR(w, ctx)
    ensures !Quiet(Barred(w), ctx)
  {
    BarredDrops(w, ctx);
    hide Drops, Shared, SharesOnce, DropsWell, SharesR;
    var part, drops := Barred(w).r.c, {Barred(w).l};
    assert part.l !in drops;
    assert Offers(part, true, drops) && Barred(w).r == Not(part);
    assert Offers(Not(part), false, drops) && Offers(Barred(w), false, drops);
    assert !NeedsWrap(Barred(w).l, drops) && !NeedsWrap(Barred(w), drops);
  }

  lemma BarredSuits(ctx: Ctx)
    requires SharesR("X", ctx)
    ensures Suits(Barred("X"), ctx, 3)
  {
    BarredDrops("X", ctx);
    hide ShareOf, Drops, Shared, SharesOnce, DropsWell, NeedsWrap;
    assert Local(Barred("X").r) == {"X", "Y", "U"};
    assert Matches(Barred("X"), ctx);
  }

  lemma BarredRelations(w: SnipVar)
    ensures RelationsOf(BarredInserted(w)) == {OrigRel(NegatedRelation(w), true, false),
              OrigRel(Belongs(w), true, false)}
    ensures RelationsOf(BarredTree(w)) ==
              {OrigRel(RELATION, true, false), OrigRel(BarredCall(w).UserRel(), true, false)}
                  + RelationsOf(BarredInserted(w))
  {
    RelationsOfBoth(RELATION, BarredCall(w).UserRel());
    RelationsOfBoth(And(RELATION, BarredCall(w).UserRel()), BarredInserted(w));
    var part := BarredInserted(w).c;
    assert RelationsIn(part, true, true) == {OrigRel(NegatedRelation(w), true, false),
             OrigRel(Belongs(w), true, false)};
  }

  lemma HasIndex(w: SnipVar)
    requires w == "X" || w == "A"
    ensures IndexOf(HasCtx(w).varinfos, HAS_CHECK.mapped, BarredTree(w))
    ensures HasCtx(w).Fixed() == map["X" := Ref(1), "U" := Ref(2)]
  {
    var orel := OrigRel(NegatedRelation(w), true, false);
    BarredRelations(w);
    assert RelationsAbout(BarredTree(w), AsObject, Ref(1)) == {orel};
    assert RelationsAbout(BarredTree(w), AsSubject, Ref(1)) == {OrigRel(RELATION, true, false)};
    assert Revvarmap(HAS_CHECK.mapped) == map["X" := Ref(1)];
  }

  /** The relation under the `Not` is used in place of the snippet's. */
  lemma HasShares(w: SnipVar)
    requires w == "X" || w == "A"
    ensures ShareOf(HAS.l, false, HasCtx(w)) == Some(Share("X", "B", AsObject, Ref(1), {"T"}, NegatedRelation(w)))
    ensures ShareOf(HAS.r, false, HasCtx(w)) == None
  {
    HasIndex(w);
    var vi := HasCtx(w).varinfos[0];
    assert Serves("t", AsObject, vi, Single());
    assert CompatibleRelation(vi.lhsRels["t"]).value == OrigRel(NegatedRelation(w), true, false);
  }

  lemma HasIsInserted(w: SnipVar, n0: Var)
    requires w == "X" || w == "A"
    ensures Inserted(HAS, HasCtx(w), n0) == Some(Belongs(w))
  {
    HasIndex(w);
    HasShares(w);
    hide ShareOf, HasCtx;
    var st := VState(map["B" := NameOf(w)], n0, map[], false);
    assert Visit(HAS.l, false, Start(n0), HasCtx(w)) == (None, st);
    assert Visit(HAS.r, false, st, HasCtx(w)) == (Some(Belongs(w)), st);
  }

  lemma BarredIsTold(w: SnipVar)
    requires w == "X" || w == "A"
    ensures (forall e <- BarredStage(w).log :: Told(e, BarredCtx(w)))
              && Roots(BarredStage(w).log, BarredCtx(w)) == [BarredInserted(w)]
  {
    BarredIndex(w);
    BarredShares(w, [InfoWithRelation()]);
    BarredIsBuilt(w, BarredCtx(w));
    hide Inserted, IndexOf, SharesR;
    OneRoot(BarredStage(w).log[0], BarredCtx(w));
  }

  lemma BarredFollows(w: SnipVar)
    requires w == "X" || w == "A"
    ensures Follows(BarredStage(w), BarredCheck(w), Plain())
  {
    hide IndexOf, Told;
    BarredIndex(w);
    BarredIsTold(w);
    assert Indexes(BarredCtx(w), BarredCheck(w), Plain(), RELATION);
    hide BarredCtx, Indexes;
    assert BarredStage(w).log[0].verdict != Rejected;
  }

  lemma HasIsTold(w: SnipVar)
    requires w == "X" || w == "A"
    ensures (forall e <- HasStage(w).log :: Told(e, HasCtx(w)))
              && Roots(HasStage(w).log, HasCtx(w)) == [Exists(Belongs(w))]
  {
    hide HasStart, HasCtx;
    HasIsInserted(w, HasStart(w));
    OneRoot(HasStage(w).log[0], HasCtx(w));
  }

  lemma HasFollows(w: SnipVar)
    requires w == "X" || w == "A"
    ensures Follows(HasStage(w), HAS_CHECK, Plain())
  {
    hide HasStart, IndexOf, Told;
    HasIndex(w);
    HasIsTold(w);
    assert Indexes(HasCtx(w), HAS_CHECK, Plain(), BarredTree(w));
    hide HasCtx, Indexes;
    assert HasStage(w).log[0].verdict != Rejected;
  }

  lemma BarredNames(w: SnipVar)
    ensures InOrder(BarredStage(w).log, BarredCtx(w), 3, HasStart(w))
              && InOrder(HasStage(w).log, HasCtx(w), HasStart(w), BarredRun(w).hi)
  {
    NamesGrow(Barred(w), false, Start(3), BarredCtx(w));
    NamesGrow(HAS, false, Start(HasStart(w)), HasCtx(w));
    hide Visit;
    assert InOrder(BarredStage(w).log[..0], BarredCtx(w), 3, 3);
    assert InOrder(HasStage(w).log[..0], HasCtx(w), HasStart(w), HasStart(w));
  }

  lemma TwoStages(a: Stage, b: Stage, user: Node<Var>, last: Node<Var>, hi: Var)
    requires (forall e <- a.log :: Told(e, a.ctx)) && InOrder(a.log, a.ctx, a.start, b.start)
    requires (forall e <- b.log :: Told(e, b.ctx)) && InOrder(b.log, b.ctx, b.start, hi)
    requires b.tree == Shape(a.tree, user, Roots(a.log, a.ctx), a.when)
    requires last == Shape(b.tree, user, Roots(b.log, b.ctx), b.when)
    ensures Staged([a, b], user, a.tree, last, a.start, hi)
  {
    hide Told, InOrder, Shape, Roots;
    assert [a, b][..1] == [a] && [a][..0] == [];
    assert Staged([], user, a.tree, a.tree, a.start, a.start);
    assert Staged([a], user, a.tree, b.tree, a.start, b.start);
  }

  lemma BarredIsStaged(w: SnipVar)
    requires w == "X" || w == "A"
    ensures Staged(BarredRun(w).stages, BarredCall(w).UserRel(), RELATION, BarredRun(w).last, 3, BarredRun(w).hi)
  {
    BarredIsTold(w);
    HasIsTold(w);
    BarredNames(w);
    BarredShapes(w);
    hide StateAfter, InOrder, Roots, BarredCtx, HasCtx, HasStart, Told, Shape, BarredTree, Staged;
    TwoStages(BarredStage(w), HasStage(w), BarredCall(w).UserRel(), BarredRun(w).last, BarredRun(w).hi);
  }

  lemma BarredShapes(w: SnipVar)
    ensures Shape(RELATION, BarredCall(w).UserRel(), [BarredInserted(w)], Before) == BarredTree(w)
    ensures Shape(BarredTree(w), BarredCall(w).UserRel(), [Exists(Belongs(w))], Never) == BarredRun(w).last
  {
    hide HasStart, HasCtx, BarredCtx;
  }

  lemma BarredUsesUser(w: SnipVar)
    ensures UsesUser(BarredCall(w).checks)
  {
    assert "U" in Vars(Barred(w).r.c.r) && "U" in Vars(Barred(w).r.c);
    assert "U" in Vars(Barred(w)) && BarredCall(w).checks[0].exprs[0] == Barred(w);
  }

  lemma BarredStages(w: SnipVar)
    ensures UserAdded(BarredRun(w).stages) && !NoRoots(BarredRun(w).stages)
  {
    hide HasStart, HasCtx, BarredCtx, BarredTree, HasStage;
    var st := BarredRun(w).stages[0];
    assert st.log[0].verdict == Accepted && st.when != Never;
  }

  lemma BothFollow(a: Stage, b: Stage, c: Check, d: Check, setup: Setup)
    requires Follows(a, c, setup) && Follows(b, d, setup)
    ensures FollowAll([a, b], [c, d], setup)
  {
    hide Follows;
  }

  lemma BarredFollowAll(w: SnipVar)
    requires w == "X" || w == "A"
    ensures FollowAll(BarredRun(w).stages, BarredCall(w).checks, Plain())
  {
    hide Follows, BarredStage, HasStage, HasStart, FollowAll, BarredCheck, BarredTree, BarredCtx, HasCtx;
    BarredFollows(w);
    HasFollows(w);
    BothFollow(BarredStage(w), HasStage(w), BarredCheck(w), HAS_CHECK, Plain());
  }

  lemma BarredIsRewritten(w: SnipVar)
    requires w == "X" || w == "A"
    ensures Rewrote(BarredRun(w)) && BarredRun(w).Result() == BarredRun(w).last
              && BarredRun(w).ResultVars() == {0, 1, 2}
  {
    var run := BarredRun(w);
    assert run.call == BarredCall(w) && run.call.All() == {0, 1, 2};
    hide BarredRun, Staged, FollowAll, UsesUser, UserAdded, NoRoots;
    BarredFollowAll(w);
    BarredIsStaged(w);
    BarredUsesUser(w);
    BarredStages(w);
  }

  /** Nothing is "t" of anything; 0 belongs to the user. */
  function Barring(): Db {
    Db({0, 1, 2}, (r, a, b) => if r == "eid" then a == b else (r, a, b) in {("r", 0, 1), ("s", 0, 2)}, v => "T")
  }

  function BarredEnv(w: SnipVar): Env<Var> {
    if w == "X" then map[0 := 0, 1 := 1, 2 := 2] else map[0 := 0, 1 := 1, 2 := 2, 3 := 0]
  }

  lemma BarredVars(w: SnipVar)
    requires w == "X" || w == "A"
    ensures Local(BarredRun(w).last) == {0, 1, 2, NameOf(w)}
  {
    hide HasStart, HasCtx, BarredCtx;
    var left := And(RELATION, BarredCall(w).UserRel());
    assert Local(left) == {0, 1, 2};
    assert Local(BarredInserted(w)) == {1, 2, NameOf(w)};
    assert Vars(Belongs(w)) == {2, NameOf(w)};
  }

  lemma BarredHolds(w: SnipVar, e: Env<Var>, vars: set<Var>)
    requires w == "X" || w == "A"
    requires e == BarredEnv(w) && vars == {0, 1, 2, NameOf(w)}
    ensures Eval(BarredInserted(w), e, vars, Barring()) && Eval(Exists(Belongs(w)), e, vars, Barring())
  {
    assert e[NameOf(w)] == 0 && Barring().rel("s", 0, 2) && !Barring().rel("t", 1, 0);
    hide Barring, Sat;
    assert !Eval(NegatedRelation(w), e, vars, Barring()) && Eval(Belongs(w), e, vars, Barring());
    SatWhenBound(Belongs(w), e, vars, Barring());
  }

  lemma BarredMeets(w: SnipVar, e: Env<Var>, vars: set<Var>)
    requires w == "X" || w == "A"
    requires e == BarredEnv(w) && vars == {0, 1, 2, NameOf(w)}
    ensures Eval(BarredRun(w).last, e, vars, Barring())
  {
    BarredHolds(w, e, vars);
    assert Eval(RELATION, e, vars, Barring()) && Eval(BarredCall(w).UserRel(), e, vars, Barring());
    hide Barring, BarredInserted, Belongs, HasStart, HasCtx, BarredCtx;
    assert Eval(BarredTree(w), e, vars, Barring());
  }

  lemma BarredIsLetIn(w: SnipVar)
    requires w == "X" || w == "A"
    ensures BarredEnv(w) in Solutions(BarredRun(w).last, map[], {0, 1, 2, NameOf(w)}, Barring())
  {
    var e, vars := BarredEnv(w), {0, 1, 2, NameOf(w)};
    EnvsAreAll(vars, Barring().dom, e);
    assert Gives(e, vars, Barring().dom) && TypesFit(e, map[], Barring());
    hide Gives, TypesFit, Barring, Eval, BarredRun;
    BarredMeets(w, e, vars);
  }

  lemma HasDoesNotHold(w: SnipVar)
    requires w == "X" || w == "A"
    ensures !Holds(HAS, HasCtx(w), BarredEnv(w), Barring())
  {
    HasIndex(w);
    var e, eb: set<SnipVar> := MappedValues(HasCtx(w), BarredEnv(w)), HasCtx(w).Fixed().Keys;
    hide HasCtx;
    forall e' | Extends(e', e, eb, Local(HAS), Barring())
      ensures !Eval(HAS, e', eb + Local(HAS), Barring())
    {
      assert !Eval(HAS.l, e', eb + Local(HAS), Barring());
    }
  }

  lemma BarredIsNotGranted(w: SnipVar)
    requires w == "X" || w == "A"
    ensures !GrantedAll(BarredRun(w).stages, BarredEnv(w), Barring())
  {
    HasDoesNotHold(w);
    hide Holds, HasStart, BarredStage, HasCtx, Barring;
    var stage := BarredRun(w).stages[1];
    assert stage == HasStage(w) && forall e <- stage.log :: e.snip == HAS;
    assert !Granted(stage.log, stage.ctx, BarredEnv(w), Barring());
  }

  /** The second check suits the query before the call, which has no relation "t". */
  lemma HasSuits(vis: seq<VarInfo>)
    requires IndexOf(vis, HAS_CHECK.mapped, RELATION)
    ensures Suits(HAS, CtxOf(HAS_CHECK, vis, Plain()), 3)
  {
    var ctx := CtxOf(HAS_CHECK, vis, Plain());
    assert RelationsAbout(RELATION, AsObject, Ref(1)) == {};
    assert ListsFor(vis[0], HAS_CHECK.mapped[0], RELATION);
    assert !Serves("t", AsObject, vis[0], Single());
    assert vis[1..] == [] && MayBeSharedWith("t", AsObject, vis, Single()) == None;
    assert Revvarmap(HAS_CHECK.mapped) == map["X" := Ref(1)];
    assert ShareOf(HAS.l, false, ctx) == None && ShareOf(HAS.r, false, ctx) == None;
    hide ShareOf, IndexOf;
    assert Drops(HAS, false, ctx) == {} && Shared(HAS, false, ctx) == {} && NeedsWrap(HAS.l, {});
  }

  lemma BarredIsReady(c: Check)
    requires c in BarredCall("X").checks
    ensures Ready(c, Plain(), RELATION, BarredCall("X").vars)
  {
    forall vis: seq<VarInfo> | IndexOf(vis, c.mapped, RELATION)
      ensures forall n <- c.exprs :: Suits(n, CtxOf(c, vis, Plain()), 3)
    {
      if c == HAS_CHECK {
        HasSuits(vis);
      } else {
        BarredShares("X", vis);
        BarredSuits(CtxOf(c, vis, Plain()));
      }
    }
    hide Suits, IndexOf, CtxOf;
    assert SuitsQuery(c, Plain(), RELATION);
  }

  lemma BarredIsNotQuiet(w: SnipVar)
    requires w == "X" || w == "A"
    ensures !QuietQuery(BarredCheck(w), Plain(), RELATION)
  {
    BarredIndex(w);
    BarredShares(w, [InfoWithRelation()]);
    BarredIsNoisy(w, BarredCtx(w));
    hide Quiet, IndexOf, SharesR;
    assert Barred(w) in BarredCheck(w).exprs;
  }

  lemma BarredConforms()
    ensures Conforms(Barring(), Single())
  {
    SingleConforms(Barring());
  }

  lemma BarredIsInOrder(w: SnipVar)
    ensures InOrderFor(BarredCall(w), Barring())
  {
  }

  /** A solution that the second check denies is let in. */
  ghost predicate LetsIn(run: Run, e: Env<Var>, db: Db) {
    && Rewrote(run) && e in Solutions(run.Result(), map[], run.ResultVars() + Local(run.Result()), db)
    && !GrantedAll(run.stages, e, db)
  }

  lemma BarredIsLet(w: SnipVar)
    requires w == "X" || w == "A"
    ensures LetsIn(BarredRun(w), BarredEnv(w), Barring())
  {
    hide Rewrote, Solutions, GrantedAll, BarredRun, BarredEnv, Barring, Local;
    BarredIsRewritten(w);
    BarredVars(w);
    BarredIsLetIn(w);
    BarredIsNotGranted(w);
    assert BarredRun(w).ResultVars() + Local(BarredRun(w).last) == {0, 1, 2, NameOf(w)};
  }

  /** With "X" for `w` the checks suit the query. */
  lemma BarredChecksAreReady()
    ensures forall c <- BarredCall("X").checks :: Ready(c, Plain(), RELATION, BarredCall("X").vars)
    ensures InOrderFor(BarredCall("X"), Barring()) && Conforms(Barring(), Single())
  {
    hide *;
    BarredConforms();
    BarredIsInOrder("X");
    forall c | c in BarredCall("X").checks
      ensures Ready(c, Plain(), RELATION, BarredCall("X").vars)
    {
      BarredIsReady(c);
    }
  }

  /** The first check leaves a `Not` without an `Exists`: its relation is in the scope of the statement, and not right
      under the `Not`. The second check takes it for a condition of the query, and lets in what it should deny. With "X"
      for `w` no other condition fails; with "A" the `Not` also brings a new variable. */
  lemma NegatedRelationUsed(w: SnipVar)
    requires w == "X" || w == "A"
    ensures BarredRun(w).call == BarredCall(w) && LetsIn(BarredRun(w), BarredEnv(w), Barring())
    ensures !QuietQuery(BarredCheck(w), Plain(), RELATION)
    ensures w == "X" ==> forall c <- BarredCall(w).checks :: Ready(c, Plain(), RELATION, BarredCall(w).vars)
    ensures w == "X" ==> InOrderFor(BarredCall(w), Barring()) && Conforms(Barring(), Single())
  {
    hide LetsIn, QuietQuery, Ready, Conforms, InOrderFor, BarredEnv, Barring;
    BarredIsLet(w);
    BarredIsNotQuiet(w);
    BarredChecksAreReady();
  }
}
