/** A call that meets the conditions of the theorems, and queries and snippets for which the rewriter does not keep the
    meaning: one for each condition that it does not check. */
module RqlLimits {
  import opened RqlTrees
  import opened RqlSharing
  import opened RqlVisitors
  import opened RqlVisits
  import opened RqlSnippets
  import opened RqlRewriters
  import opened RqlRows
  import opened RqlIndexes
  import opened RqlRewritings
  import opened RqlStages
  import opened RqlRuns
  import opened Wrappers

  /** One type, and at most one target everywhere. */
  function Single(): Schema {
    Schema((r, e) => {"T"}, (r, e) => {"T"}, (r, e, t) => ('?', '?'))
  }

  function Pairs(pairs: set<(string, Val, Val)>): Db {
    Db({0, 1, 2}, (r, a, b) => (r, a, b) in pairs, v => "T")
  }

  function Info(v: Var, lhs: map<string, seq<OrigRel>>): VarInfo {
    VarInfo(Ref(v), {"T"}, lhs, map[])
  }

  const RELATION: Node<Var> := Rel("r", Ref(0), Ref(1))

  function InfoWithRelation(): VarInfo {
    Info(0, map["r" := [OrigRel(RELATION, true, false)]])
  }

  function OneVariable(): Ctx {
    Ctx(map["X" := Ref(0)], Ref(9), [InfoWithRelation()], Single())
  }

  /** The snippet relates the mapped variable `x` to some `y`. */
  function Snippet(x: SnipVar, y: SnipVar): Node<SnipVar> {
    Rel("r", Ref(x), Ref(y))
  }

  lemma FoundFirst()
    ensures MayBeSharedWith("r", AsObject, [InfoWithRelation()], Single()) == Some((InfoWithRelation(), RELATION))
  {
  }

  lemma FoundFirstOf(rest: seq<VarInfo>)
    ensures MayBeSharedWith("r", AsObject, [InfoWithRelation()] + rest, Single())
              == Some((InfoWithRelation(), RELATION))
  {
    FoundFirst();
  }

  lemma IndexIsRight(ctx: Ctx, where: Node<Var>)
    requires forall vi <- ctx.varinfos :: vi.rhsRels == map[] && (vi.lhsRels == map[] || vi == InfoWithRelation())
    requires TopConjunct(RELATION, where)
    ensures Indexed(ctx, where)
  {
  }

  /** No value has two targets, or two sources. */
  lemma SingleConforms(db: Db)
    requires forall v :: db.typeOf(v) == "T"
    requires forall r, a, b, c :: db.rel(r, a, b) && db.rel(r, a, c) ==> b == c
    requires forall r, a, b, c :: db.rel(r, b, a) && db.rel(r, c, a) ==> b == c
    ensures Conforms(db, Single())
  {
  }

  /** Nothing is inserted for a snippet whose relation the first entry has. */
  lemma NothingInserted(ctx: Ctx, x: SnipVar, y: SnipVar, rest: seq<VarInfo>)
    requires x in ctx.revvarmap && y != "U" && ctx.varinfos == [InfoWithRelation()] + rest && ctx.schema == Single()
    ensures Inserted(Snippet(x, y), ctx, 10) == None
    ensures DropsWell(Snippet(x, y), Drops(Snippet(x, y), false, ctx))
    ensures ctx.revvarmap[x] == Ref(0) ==> Insertable(Snippet(x, y), ctx, 10)
  {
    FoundFirstOf(rest);
  }

  lemma DoesNotHold(ctx: Ctx, x: SnipVar, y: SnipVar, f: Env<Var>, db: Db)
    requires x in ctx.Fixed() && (y == x || y !in ctx.Fixed())
    requires forall b :: db.rel("r", ValueOf(ctx.Fixed()[x], f), b) ==> y == x && b != ValueOf(ctx.Fixed()[x], f)
    ensures !Holds(Snippet(x, y), ctx, f, db)
  {
    var e, n := MappedValues(ctx, f), Snippet(x, y);
    forall e' | Extends(e', e, ctx.Fixed().Keys, Local(n), db)
      ensures !Eval(n, e', ctx.Fixed().Keys + Local(n), db)
    {
      assert e'[x] == e[x];
    }
  }

  lemma OneRoot(e: Entry, ctx: Ctx)
    requires e.verdict == Accepted && Inserted(e.snip, ctx, e.start).Some?
    ensures (forall d <- [e] :: Told(d, ctx)) && Roots([e], ctx) == [Root(e, ctx)]
  {
    hide Inserted;
    assert [e][..0] == [];
  }

  // ----- a call that meets the conditions

  /** What the mapped variable is related to must be related to the user. */
  const OWNED: Node<SnipVar> := And(Rel("r", Ref("X"), Ref("Y")), Rel("s", Ref("Y"), Ref("U")))

  const OWNED_INSERTED: Node<Var> := Rel("s", Ref(1), Ref(2))

  const OWNED_CHECK: Check := Check([Mapping("X", Ref(0), {"T"})], [OWNED])

  function OwnedCall(): Call {
    Call(RELATION, {0, 1}, map[], Setup(2, Single()), 2, [OWNED_CHECK])
  }

  /** Two solutions; the check lets one of them through. */
  function Owned(): Db {
    Db({0, 1, 2},
       (r, a, b) => if r == "eid" then a == b else (r, a, b) in {("r", 0, 1), ("r", 2, 0), ("s", 1, 2)},
       v => "T")
  }

  lemma OwnedConforms()
    ensures Conforms(Owned(), Single())
  {
    SingleConforms(Owned());
  }

  lemma OwnedShares(vis: seq<VarInfo>)
    requires IndexOf(vis, OWNED_CHECK.mapped, RELATION)
    ensures var ctx := CtxOf(OWNED_CHECK, vis, Setup(2, Single()));
            && ShareOf(OWNED.l, false, ctx) == Some(Share("X", "Y", AsObject, Ref(0), {"T"}, RELATION))
            && ShareOf(OWNED.r, false, ctx) == None
  {
    var orel := OrigRel(RELATION, true, false);
    assert RelationsAbout(RELATION, AsObject, Ref(0)) == {orel};
    assert ListsFor(vis[0], OWNED_CHECK.mapped[0], RELATION);
    assert orel in vis[0].lhsRels["r"];
    assert Serves("r", AsObject, vis[0], Single());
  }

  lemma OwnedSuits(vis: seq<VarInfo>)
    requires IndexOf(vis, OWNED_CHECK.mapped, RELATION)
    ensures var ctx := CtxOf(OWNED_CHECK, vis, Setup(2, Single()));
            Suits(OWNED, ctx, 3) && Inserted(OWNED, ctx, 3) == Some(OWNED_INSERTED)
  {
    var ctx := CtxOf(OWNED_CHECK, vis, Setup(2, Single()));
    OwnedShares(vis);
    hide ShareOf, IndexOf;
    assert Drops(OWNED, false, ctx) == {OWNED.l} && OWNED.l != OWNED.r;
    assert Shared(OWNED, false, ctx) == {"Y"};
    assert "Y" !in ctx.Fixed();
    assert Revvarmap(OWNED_CHECK.mapped) == map["X" := Ref(0)];
    assert SharesOnce(OWNED.l, false, ctx, 3) && SharesOnce(OWNED.r, false, ctx, 3)
             && Shared(OWNED.r, false, ctx) == {};
    assert NeedsWrap(OWNED.r, {OWNED.l});
    assert SharesOnce(OWNED, false, ctx, 3);
    assert DropsWell(OWNED, {OWNED.l});
    assert NeedsWrap(OWNED, {OWNED.l});
  }

  function OwnedCtx(): Ctx {
    CtxOf(OWNED_CHECK, [InfoWithRelation()], Setup(2, Single()))
  }

  lemma OwnedIndex()
    ensures IndexOf([InfoWithRelation()], OWNED_CHECK.mapped, RELATION)
    ensures OwnedCtx().Fixed() == map["X" := Ref(0), "U" := Ref(2)]
  {
    assert RelationsAbout(RELATION, AsObject, Ref(0)) == {OrigRel(RELATION, true, false)};
    assert RelationsAbout(RELATION, AsSubject, Ref(0)) == {};
    assert Revvarmap(OWNED_CHECK.mapped) == map["X" := Ref(0)];
  }

  function OwnedStage(): Stage {
    Stage(RELATION, OwnedCtx(), [Entry(OWNED, 3, Accepted)], Before, 3)
  }

  function OwnedRun(): Run {
    Run(OwnedCall(), [OwnedStage()], And(And(RELATION, OwnedCall().UserRel()), Exists(OWNED_INSERTED)),
        StateAfter(OWNED, OwnedCtx(), 3).next)
  }

  lemma OwnedIsTold()
    ensures Told(Entry(OWNED, 3, Accepted), OwnedCtx())
    ensures Roots(OwnedStage().log, OwnedCtx()) == [Exists(OWNED_INSERTED)]
  {
    OwnedIndex();
    OwnedSuits([InfoWithRelation()]);
    hide Inserted, IndexOf, Suits, OwnedCtx;
    assert OwnedStage().log[..0] == [];
  }

  lemma OwnedFollows()
    ensures Follows(OwnedStage(), OWNED_CHECK, Setup(2, Single()))
  {
    OwnedIndex();
    OwnedIsTold();
    hide IndexOf, Told;
    assert OwnedStage().log[0].verdict != Rejected;
  }

  lemma OwnedNames()
    ensures InOrder(OwnedStage().log, OwnedCtx(), 3, OwnedRun().hi)
  {
    var log, ctx := OwnedStage().log, OwnedCtx();
    NamesGrow(OWNED, false, Start(3), ctx);
    hide Visit;
    assert InOrder(log[..0], ctx, 3, 3);
  }

  lemma OwnedIsRewritten()
    ensures Rewrote(OwnedRun()) && OwnedRun().Result() == OwnedRun().last
  {
    var run := OwnedRun();
    OwnedFollows();
    OwnedIsTold();
    OwnedNames();
    hide Follows, StateAfter, InOrder, Roots, OwnedCtx;
    assert run.stages[..0] == [] && run.stages[0].log[0].verdict == Accepted;
    assert Staged(run.stages, run.call.UserRel(), RELATION, run.last, 3, run.hi);
    assert "U" in Vars(OWNED) && run.call.checks[0].exprs[0] == OWNED;
  }

  lemma OwnedSolution(a: Val, b: Val)
    requires (a, b) in {(0, 1), (2, 0)}
    ensures map[0 := a, 1 := b] in Solutions(RELATION, map[], {0, 1}, Owned())
  {
    var e: Env<Var> := map[0 := a, 1 := b];
    EnvsAreAll({0, 1}, Owned().dom, e);
    assert Eval(RELATION, e, {0, 1}, Owned());
  }

  /** The snippet holds where what `a` is related to is related to the user. */
  lemma OwnedHolds(a: Val, b: Val, f: Env<Var>)
    requires (a, b) in {(0, 1), (2, 0)} && f == map[0 := a, 1 := b, 2 := 2]
    ensures Holds(OWNED, OwnedCtx(), f, Owned()) <==> b == 1
  {
    OwnedIndex();
    var e, eb: set<SnipVar> := MappedValues(OwnedCtx(), f), {"X", "U"};
    assert e == map["X" := a, "U" := 2] && OwnedCtx().Fixed().Keys == eb;
    OwnedSat(a, b, e, eb);
    hide OwnedCtx, Sat, Owned;
  }

  lemma OwnedSat(a: Val, b: Val, e: Env<SnipVar>, eb: set<SnipVar>)
    requires (a, b) in {(0, 1), (2, 0)} && e == map["X" := a, "U" := 2] && eb == {"X", "U"}
    ensures Sat(OWNED, e, eb, Owned()) <==> b == 1
  {
    assert Local(OWNED) == {"X", "Y", "U"};
    if b == 1 {
      var e': Env<SnipVar> := map["X" := a, "U" := 2, "Y" := 1];
      assert Extends(e', e, eb, Local(OWNED), Owned());
      assert Eval(OWNED, e', eb + Local(OWNED), Owned());
    }
  }

  lemma OwnedKept(a: Val, b: Val)
    requires (a, b) in {(0, 1), (2, 0)}
    ensures map[0 := a, 1 := b] in OwnedRun().Kept(Owned()) <==> b == 1
  {
    var e: Env<Var> := map[0 := a, 1 := b];
    OwnedSolution(a, b);
    OwnedHolds(a, b, Plus(e, 2, 2));
    hide Holds, Solutions, StateAfter, OwnedCtx;
    var stage := OwnedRun().stages[0];
    assert stage.log[0].verdict == Accepted;
    assert AllowsAll(OwnedRun().stages, Plus(e, 2, 2), Owned()) <==>
             Allows(stage.log, stage.ctx, Plus(e, 2, 2), Owned());
  }

  /** The conditions on a call can be met: here the snippet shares a variable, needs the user and is accepted, and
      the rewritten query has the row of one of the two solutions. */
  lemma OwnedRows()
    ensures Prepared(OwnedCall(), Owned()) && OwnedRun().call == OwnedCall() && Rewrote(OwnedRun())
    ensures OwnedRun().Result() == And(And(RELATION, OwnedCall().UserRel()), Exists(OWNED_INSERTED))
    ensures {map[0 := 0, 1 := 1], map[0 := 2, 1 := 0]} <= Solutions(RELATION, map[], {0, 1}, Owned())
    ensures map[0 := 0, 1 := 1] in OwnedRun().Kept(Owned()) && map[0 := 2, 1 := 0] !in OwnedRun().Kept(Owned())
  {
    hide Prepared, Rewrote, Solutions, AllowsAll, StateAfter, OwnedCtx, Owned, NoRoots;
    OwnedIsPrepared();
    OwnedIsRewritten();
    OwnedSolution(0, 1);
    OwnedSolution(2, 0);
    OwnedKept(0, 1);
    OwnedKept(2, 0);
  }

  lemma OwnedIsReady()
    ensures Ready(OWNED_CHECK, Setup(2, Single()), RELATION, {0, 1})
  {
    forall vis | IndexOf(vis, OWNED_CHECK.mapped, RELATION)
      ensures Suits(OWNED, CtxOf(OWNED_CHECK, vis, Setup(2, Single())), 3)
    {
      OwnedSuits(vis);
    }
    hide Suits, IndexOf;
    assert SuitsQuery(OWNED_CHECK, Setup(2, Single()), RELATION);
  }

  lemma OwnedIsPrepared()
    ensures Prepared(OwnedCall(), Owned())
  {
    OwnedConforms();
    OwnedIsReady();
    hide Ready, Conforms, Solutions;
    assert InOrderFor(OwnedCall(), Owned());
  }

  /** The relation that is used is an alternative in the query: nothing is inserted, and solutions for which
      the snippet does not hold stay. */
  lemma RelationUnderOr() returns (where: Node<Var>, f: Env<Var>, db: Db)
    ensures var ctx, n, base := OneVariable(), Snippet("X", "Y"), {0, 1, 9};
            && where.Or? && where.l == RELATION && Local(where) <= base && Eval(where, f, base, db)
            && Mapped(ctx, base, 10) && Insertable(n, ctx, 10) && Conforms(db, ctx.schema) && Values(f, base, ctx, db)
            && Inserted(n, ctx, 10) == None && !Holds(n, ctx, f, db)
  {
    hide Inserted, Holds, Insertable, Conforms;
    where := Or(RELATION, Rel("s", Ref(0), Ref(1)));
    f := map[0 := 0, 1 := 1, 9 := 2];
    db := Pairs({("s", 0, 1)});
    SingleConforms(db);
    NothingInserted(OneVariable(), "X", "Y", []);
    DoesNotHold(OneVariable(), "X", "Y", f, db);
  }

  /** The relation that is used is one of another mapped variable. */
  lemma RelationOfAnotherVariable() returns (where: Node<Var>, f: Env<Var>, db: Db, ctx: Ctx)
    ensures var n, base := Snippet("O", "Y"), {0, 1, 2, 9};
            && Local(where) <= base && Eval(where, f, base, db) && Mapped(ctx, base, 10) && Indexed(ctx, where)
            && DropsWell(n, Drops(n, false, ctx)) && Conforms(db, ctx.schema) && Values(f, base, ctx, db)
            && Inserted(n, ctx, 10) == None && !Holds(n, ctx, f, db)
  {
    hide Inserted, Holds, DropsWell, Drops, Conforms, Indexed;
    where := And(RELATION, Rel("s", Ref(0), Ref(2)));
    f := map[0 := 0, 1 := 1, 2 := 2, 9 := 2];
    db := Pairs({("r", 0, 1), ("s", 0, 2)});
    ctx := Ctx(map["S" := Ref(0), "O" := Ref(2)], Ref(9), [InfoWithRelation()] + [Info(2, map[])], Single());
    IndexIsRight(ctx, where);
    SingleConforms(db);
    NothingInserted(ctx, "O", "Y", [Info(2, map[])]);
    DoesNotHold(ctx, "O", "Y", f, db);
  }

  lemma DoesNotMatch(f: Env<Var>)
    requires f == map[0 := 0, 1 := 1, 9 := 2]
    ensures !MatchesAt(Snippet("X", "X"), OneVariable(), f)
  {
    FoundFirst();
    assert Snippet("X", "X") in Drops(Snippet("X", "X"), false, OneVariable());
    assert !MatchesFor(Snippet("X", "X"), OneVariable(), f);
  }

  /** The snippet's variable that would be shared is mapped itself, to another term than the relation that is used
      has. */
  lemma MappedVariableShared() returns (f: Env<Var>, db: Db)
    ensures var ctx, n, base, where := OneVariable(), Snippet("X", "X"), {0, 1, 9}, RELATION;
            && Local(where) <= base && Eval(where, f, base, db) && Mapped(ctx, base, 10) && Indexed(ctx, where)
            && Insertable(n, ctx, 10) && Conforms(db, ctx.schema) && Values(f, base, ctx, db) && !MatchesAt(n, ctx, f)
            && Inserted(n, ctx, 10) == None && !Holds(n, ctx, f, db)
  {
    hide Inserted, Holds, Insertable, Conforms, Indexed;
    f := map[0 := 0, 1 := 1, 9 := 2];
    db := Pairs({("r", 0, 1)});
    DoesNotMatch(f);
    IndexIsRight(OneVariable(), RELATION);
    SingleConforms(db);
    NothingInserted(OneVariable(), "X", "X", []);
    DoesNotHold(OneVariable(), "X", "X", f, db);
  }

  // ----- new variables in the scope of the statement

  const ANY_TITLED: Node<Var> := Rel("t", Ref(0), Ref(0))

  /** Two leaves that have the variable "A" in common. */
  const LEAVES: Node<SnipVar> := And(Exists(Rel("r", Ref("X"), Ref("A"))), Not(Rel("s", Ref("X"), Ref("A"))))

  const LEAVES_INSERTED: Node<Var> := And(Exists(Rel("r", Ref(0), Ref(10))), Not(Rel("s", Ref(0), Ref(10))))

  function Unrelated(): Ctx {
    Ctx(map["X" := Ref(0), "S" := Ref(0)], Ref(9), [Info(0, map[])],
        Schema((r, e) => {"T"}, (r, e) => {"T"}, (r, e, t) => ('*', '*')))
  }

  function Titled(): Db {
    Pairs({("t", 0, 0), ("r", 0, 1), ("r", 0, 2)})
  }

  lemma LeavesAreInserted()
    ensures Inserted(LEAVES, Unrelated(), 10) == Some(LEAVES_INSERTED) && Insertable(LEAVES, Unrelated(), 10)
    ensures InsertedRoot(LEAVES_INSERTED) == LEAVES_INSERTED && !StaysApart(LEAVES, Unrelated())
  {
    assert ShareOf(Rel("r", Ref("X"), Ref("A")), false, Unrelated()) == None;
    assert ShareOf(Rel("s", Ref("X"), Ref("A")), true, Unrelated()) == None;
  }

  lemma OneSolution()
    ensures Solutions(ANY_TITLED, map[], {0}, Titled()) == {map[0 := 0]}
  {
    forall e
      ensures e in Solutions(ANY_TITLED, map[], {0}, Titled()) <==> e == map[0 := 0]
    {
      EnvsAreAll({0}, Titled().dom, e);
    }
  }

  lemma AnotherSolution(a: Val)
    requires a == 1 || a == 2
    ensures map[0 := 0, 10 := a] in Solutions(And(ANY_TITLED, LEAVES_INSERTED), map[], {0, 10}, Titled())
  {
    var e: Env<Var> := map[0 := 0, 10 := a];
    EnvsAreAll({0, 10}, Titled().dom, e);
    LeavesHold(e, a);
  }

  lemma LeavesHold(e: Env<Var>, a: Val)
    requires e == map[0 := 0, 10 := a] && (a == 1 || a == 2)
    ensures Eval(ANY_TITLED, e, {0, 10}, Titled()) && Eval(LEAVES_INSERTED, e, {0, 10}, Titled())
  {
    SatWhenBound(Rel("r", Ref(0), Ref(10)), e, {0, 10}, Titled());
    SatWhenBound(Rel("s", Ref(0), Ref(10)), e, {0, 10}, Titled());
    assert Titled().rel("t", 0, 0) && Titled().rel("r", 0, a) && !Titled().rel("s", 0, a);
    hide Titled, Sat;
  }

  /** Two leaves that have a new variable in common, and no relation beside them: no `Exists` is put around them,
      and a row that came up once comes up twice. */
  lemma LeavesThatShareAVariable()
    ensures Inserted(LEAVES, Unrelated(), 10) == Some(LEAVES_INSERTED) && Insertable(LEAVES, Unrelated(), 10)
    ensures !StaysApart(LEAVES, Unrelated())
    ensures Count([0], [0], Solutions(ANY_TITLED, map[], {0}, Titled())) == 1
    ensures var where' := And(ANY_TITLED, InsertedRoot(LEAVES_INSERTED));
            Local(where') == {0, 10} && Count([0], [0], Solutions(where', map[], {0, 10}, Titled())) >= 2
  {
    LeavesAreInserted();
    OneRow();
    TwoSolutions();
    hide Inserted, Insertable, StaysApart, Count, Solutions;
  }

  lemma OneRow()
    ensures Count([0], [0], Solutions(ANY_TITLED, map[], {0}, Titled())) == 1
  {
    OneSolution();
    hide Solutions;
    assert Row([0], map[0 := 0]) == [0];
    assert (set e | e in Solutions(ANY_TITLED, map[], {0}, Titled()) && Row([0], e) == [0]) == {map[0 := 0]};
  }

  lemma TwoSolutions()
    ensures Count([0], [0], Solutions(And(ANY_TITLED, LEAVES_INSERTED), map[], {0, 10}, Titled())) >= 2
  {
    AnotherSolution(1);
    AnotherSolution(2);
    hide Solutions, Titled, ANY_TITLED;
    RowComesTwice(Solutions(And(ANY_TITLED, LEAVES_INSERTED), map[], {0, 10}, Titled()));
  }

  lemma RowComesTwice(sols: set<Env<Var>>)
    requires map[0 := 0, 10 := 1] in sols && map[0 := 0, 10 := 2] in sols
    ensures Count([0], [0], sols) >= 2
  {
    var e1, e2: Env<Var> := map[0 := 0, 10 := 1], map[0 := 0, 10 := 2];
    assert e1[10] != e2[10];
    assert Row([0], e1) == [0] && Row([0], e2) == [0];
    RowTwice([0], sols, e1, e2);
  }

  /** Nobody called 1 is known: "P" occurs under the `Not` only. */
  const NOT_KNOWN: Node<SnipVar> := Not(And(Rel("connait", Ref("S"), Ref("P")), Rel("nom", Ref("P"), Const(1))))

  const NOT_KNOWN_INSERTED: Node<Var> := Not(And(Rel("connait", Ref(0), Ref(10)), Rel("nom", Ref(10), Const(1))))

  lemma NotIsInserted()
    ensures Inserted(NOT_KNOWN, Unrelated(), 10) == Some(NOT_KNOWN_INSERTED) && Insertable(NOT_KNOWN, Unrelated(), 10)
    ensures InsertedRoot(NOT_KNOWN_INSERTED) == NOT_KNOWN_INSERTED && !StaysApart(NOT_KNOWN, Unrelated())
  {
    assert ShareOf(Rel("connait", Ref("S"), Ref("P")), false, Unrelated()) == None;
    assert ShareOf(Rel("nom", Ref("P"), Const(1)), false, Unrelated()) == None;
    assert "P" in Local(NOT_KNOWN) && "P" !in Known(NOT_KNOWN, Unrelated());
  }

  lemma SolutionOfNot(a: Val)
    requires a == 1 || a == 2
    ensures map[0 := 0, 10 := a] in Solutions(And(ANY_TITLED, NOT_KNOWN_INSERTED), map[], {0, 10}, Titled())
  {
    var e: Env<Var> := map[0 := 0, 10 := a];
    EnvsAreAll({0, 10}, Titled().dom, e);
    assert Titled().rel("t", 0, 0) && !Titled().rel("connait", 0, a);
    hide Titled;
  }

  /** A new variable that only an unwrapped `Not` mentions is in the scope of the statement: a row comes up for each of
      its values that does not meet what is negated. */
  lemma NotBringsAVariable()
    ensures Inserted(NOT_KNOWN, Unrelated(), 10) == Some(NOT_KNOWN_INSERTED) && Insertable(NOT_KNOWN, Unrelated(), 10)
    ensures !StaysApart(NOT_KNOWN, Unrelated())
    ensures Count([0], [0], Solutions(ANY_TITLED, map[], {0}, Titled())) == 1
    ensures var where' := And(ANY_TITLED, InsertedRoot(NOT_KNOWN_INSERTED));
            Local(where') == {0, 10} && Count([0], [0], Solutions(where', map[], {0, 10}, Titled())) >= 2
  {
    hide Inserted, Insertable, StaysApart, Count, Solutions, Titled;
    NotIsInserted();
    OneRow();
    SolutionOfNot(1);
    SolutionOfNot(2);
    RowComesTwice(Solutions(And(ANY_TITLED, NOT_KNOWN_INSERTED), map[], {0, 10}, Titled()));
  }
}
