/** The index stays right, and the snippets keep suiting, while the query is rewritten: what holds of the query before
    the call holds at each stage. */
module RqlStages {
  import opened RqlTrees
  import opened RqlSharing
  import opened RqlVisitors
  import opened RqlIndexes
  import opened RqlVisits
  import opened RqlSnippets
  import opened RqlRewriters
  import opened RqlRewritings
  import opened RqlRows
  import opened Wrappers

  // ----- conditions on the query before the call

  /** A relation of the query that may be used for a mapped term is a condition that every solution meets. */
  ghost predicate UsableAreConditions(mapped: seq<Mapping>, where: Node<Var>) {
    forall m <- mapped :: forall o, target | o in RelationsAbout(where, target, m.term) ::
      Usable(o) ==> TopConjunct(o.node, where)
  }

  function CtxOf(c: Check, vis: seq<VarInfo>, setup: Setup): Ctx {
    Ctx(Revvarmap(c.mapped), Ref(setup.u), vis, setup.schema)
  }

  /** The snippets of the check may be inserted in the query, in whatever order its relations are indexed. */
  ghost predicate SuitsQuery(c: Check, setup: Setup, where: Node<Var>) {
    forall vis: seq<VarInfo> | IndexOf(vis, c.mapped, where) ::
      forall n <- c.exprs :: Suits(n, CtxOf(c, vis, setup), setup.u + 1)
  }

  /** The mapped terms are variables in the scope of the query, or constants. */
  ghost predicate Ready(c: Check, setup: Setup, where: Node<Var>, vars: set<Var>) {
    && Named(c) && (forall m <- c.mapped :: m.term.Ref? ==> m.term.v in vars)
    && UsableAreConditions(c.mapped, where) && SuitsQuery(c, setup, where)
  }

  /** What is inserted for the snippets of the check has no relations that may be used for later checks. */
  ghost predicate QuietQuery(c: Check, setup: Setup, where: Node<Var>) {
    forall vis: seq<VarInfo> | IndexOf(vis, c.mapped, where) ::
      forall n <- c.exprs :: Quiet(n, CtxOf(c, vis, setup))
  }

  // ----- relations of what is inserted

  /** What a stage inserts has no relations that may be used later. */
  ghost predicate Unused(st: Stage) {
    && (forall e <- st.log :: Told(e, st.ctx))
    && forall r: Node<Var> <- Roots(st.log, st.ctx) :: NothingUsable(r)
  }

  lemma {:induction false} QuietRoots(log: seq<Entry>, ctx: Ctx, base: set<Var>, n0: Var)
    requires Mapped(ctx, base, n0) && Suited(log, ctx, n0) && forall e <- log :: Quiet(e.snip, ctx)
    ensures forall r: Node<Var> <- Roots(log, ctx) :: NothingUsable(r)
  {
    if log != [] {
      var e := log[|log| - 1];
      QuietRoots(log[..|log| - 1], ctx, base, n0);
      LastEntry(log, ctx);
      if e.verdict == Accepted {
        SuitsLater(e.snip, ctx, base, n0, e.start);
        QuietRoot(e, ctx, base);
      }
    }
  }

  lemma StageUnused(st: Stage, base: set<Var>)
    requires Mapped(st.ctx, base, st.start) && Suited(st.log, st.ctx, st.start) && forall e <- st.log ::
               Quiet(e.snip, st.ctx)
    ensures Unused(st)
  {
    QuietRoots(st.log, st.ctx, base, st.start);
  }

  lemma RelationsOfBoth(a: Node<Var>, b: Node<Var>)
    ensures RelationsOf(And(a, b)) == RelationsOf(a) + RelationsOf(b)
    ensures RelationsOf(Or(a, b)) == RelationsOf(a) + RelationsOf(b)
  {
  }

  lemma {:induction false} ChainIsNotUsable(first: Node<Var>, rest: seq<Node<Var>>)
    requires NothingUsable(first) && forall r: Node<Var> <- rest :: NothingUsable(r)
    ensures NothingUsable(Chain(first, rest))
  {
    if rest != [] {
      ChainIsNotUsable(first, rest[1..]);
      RelationsOfBoth(Chain(first, rest[1..]), rest[0]);
      assert rest[0] in rest;
    }
  }

  /** What holds between the query before the call and a later one. */
  ghost predicate Keeps(first: Node<Var>, later: Node<Var>, user: Node<Var>) {
    && RelationsOf(first) <= RelationsOf(later)
    && (forall o <- RelationsOf(later) :: Usable(o) ==> o in RelationsOf(first) || o.node == user)
    && (forall d <- RelationsOf(first) :: TopConjunct(d.node, first) ==> TopConjunct(d.node, later))
  }

  lemma ShapeKeeps(w: Node<Var>, user: Node<Var>, roots: seq<Node<Var>>, when: When)
    requires user.Rel? && forall r: Node<Var> <- roots :: NothingUsable(r)
    ensures Keeps(w, Shape(w, user, roots, when), user)
  {
    GuardKeeps(w, user, when == Before);
    GuardKeeps(w, user, when != Never);
    if roots != [] {
      var guarded, chain := Guard(w, user, when == Before), Chain(roots[0], roots[1..]);
      ChainIsNotUsable(roots[0], roots[1..]);
      RelationsOfBoth(guarded, chain);
      assert Keeps(guarded, And(guarded, chain), user);
      GuardKeeps(And(guarded, chain), user, when == After);
      KeepsOn(w, guarded, And(guarded, chain), user);
      KeepsOn(w, And(guarded, chain), Guard(And(guarded, chain), user, when == After), user);
    }
  }

  lemma GuardKeeps(w: Node<Var>, user: Node<Var>, yes: bool)
    requires user.Rel?
    ensures Keeps(w, Guard(w, user, yes), user)
  {
    RelationsOfBoth(w, user);
  }

  lemma KeepsOn(a: Node<Var>, b: Node<Var>, c: Node<Var>, user: Node<Var>)
    requires Keeps(a, b, user) && Keeps(b, c, user)
    ensures Keeps(a, c, user)
  {
  }

  lemma {:induction false} StagesKeep(stages: seq<Stage>, user: Node<Var>, first: Node<Var>, last: Node<Var>, lo: Var,
                                      hi: Var)
    requires Staged(stages, user, first, last, lo, hi) && user.Rel? && forall st <- stages :: Unused(st)
    ensures lo <= hi && Keeps(first, last, user)
  {
    if stages != [] {
      var st := stages[|stages| - 1];
      assert st in stages && forall d <- stages[..|stages| - 1] :: d in stages;
      StagesKeep(stages[..|stages| - 1], user, first, st.tree, lo, st.start);
      StartsInOrder(st.log, st.ctx, st.start, hi);
      ShapeKeeps(st.tree, user, Roots(st.log, st.ctx), st.when);
      KeepsOn(first, st.tree, last, user);
    }
  }

  lemma {:induction false} StagesBefore(stages: seq<Stage>, user: Node<Var>, first: Node<Var>, last: Node<Var>,
                                        lo: Var, hi: Var, i: nat)
    requires Staged(stages, user, first, last, lo, hi) && i < |stages|
    ensures Staged(stages[..i], user, first, stages[i].tree, lo, stages[i].start)
    ensures forall e <- stages[i].log :: Told(e, stages[i].ctx)
    ensures exists next :: InOrder(stages[i].log, stages[i].ctx, stages[i].start, next)
  {
    var n := |stages| - 1;
    if i < n {
      StagesBefore(stages[..n], user, first, stages[n].tree, lo, stages[n].start, i);
      assert stages[..n][..i] == stages[..i];
    }
  }

  // ----- the same shares at each stage

  lemma {:induction false} SameChoices(n: Node<SnipVar>, neged: bool, a: Ctx, b: Ctx)
    requires a.Fixed() == b.Fixed() && a.revvarmap == b.revvarmap
    requires forall d, neg :: ShareOf(d, neg, a) == ShareOf(d, neg, b)
    ensures Shared(n, neged, a) == Shared(n, neged, b) && Drops(n, neged, a) == Drops(n, neged, b)
    ensures forall n0 :: SharesOnce(n, neged, a, n0) <==> SharesOnce(n, neged, b, n0)
    decreases n
  {
    match n
    case And(l, r) => SameChoices(l, false, a, b); SameChoices(r, false, a, b);
    case Or(l, r) => SameChoices(l, false, a, b); SameChoices(r, false, a, b);
    case Not(c) => SameChoices(c, true, a, b);
    case Exists(c) => SameChoices(c, false, a, b);
    case Rel(_, _, _) =>
  }

  lemma SuitsAlike(n: Node<SnipVar>, a: Ctx, b: Ctx, n0: Var)
    requires a.Fixed() == b.Fixed() && a.revvarmap == b.revvarmap
    requires forall d, neg :: ShareOf(d, neg, a) == ShareOf(d, neg, b)
    ensures Suits(n, a, n0) <==> Suits(n, b, n0)
    ensures Quiet(n, a) <==> Quiet(n, b)
  {
    SameChoices(n, false, a, b);
  }

  lemma MappedAdds(c: Check, setup: Setup, first: Node<Var>, later: Node<Var>, user: Val, vars: set<Var>)
    requires Ready(c, setup, first, vars) && setup.u !in vars
               && Keeps(first, later, Rel("eid", Ref(setup.u), Const(user)))
    ensures forall m <- c.mapped :: Adds(first, later, m.term)
  {
  }

  lemma SharesAsBefore(c: Check, setup: Setup, first: Node<Var>, later: Node<Var>, ctx: Ctx, d: Node<SnipVar>,
                       neged: bool)
    requires Indexes(ctx, c, setup, later) && forall m <- c.mapped :: Adds(first, later, m.term)
    ensures ShareOf(d, neged, ctx) == ShareOf(d, neged, CtxOf(c, OnlyIn(ctx.varinfos, first), setup))
  {
    hide Adds, IndexOf, ShareOf, OnlyIn;
    assert CtxOf(c, OnlyIn(ctx.varinfos, first), setup) == ctx.(varinfos := OnlyIn(ctx.varinfos, first));
    SameShare(d, neged, ctx, c.mapped, first, later);
  }

  /** A snippet suits a later query exactly when it suits the index of the query before the call. */
  lemma SuitsAsBefore(c: Check, setup: Setup, first: Node<Var>, later: Node<Var>, ctx: Ctx, n: Node<SnipVar>)
    requires Indexes(ctx, c, setup, later) && forall m <- c.mapped :: Adds(first, later, m.term)
    ensures var before := CtxOf(c, OnlyIn(ctx.varinfos, first), setup);
            (Suits(n, before, setup.u + 1) <==> Suits(n, ctx, setup.u + 1)) && (Quiet(n, before) <==> Quiet(n, ctx))
  {
    hide OnlyIn, IndexOf, Adds, ShareOf, Suits, Quiet;
    var before := CtxOf(c, OnlyIn(ctx.varinfos, first), setup);
    forall d, neg
      ensures ShareOf(d, neg, ctx) == ShareOf(d, neg, before)
    {
      SharesAsBefore(c, setup, first, later, ctx, d, neg);
    }
    SuitsAlike(n, before, ctx, setup.u + 1);
  }

  lemma SuitsBefore(c: Check, setup: Setup, first: Node<Var>, vis: seq<VarInfo>, n: Node<SnipVar>)
    requires SuitsQuery(c, setup, first) && IndexOf(vis, c.mapped, first) && n in c.exprs
    ensures Suits(n, CtxOf(c, vis, setup), setup.u + 1)
    ensures QuietQuery(c, setup, first) ==> Quiet(n, CtxOf(c, vis, setup))
  {
    hide Suits, Quiet, IndexOf;
  }

  /** The snippets suit at each stage, because they suit the query before the call. */
  lemma StageSuits(c: Check, setup: Setup, first: Node<Var>, later: Node<Var>, user: Val, vars: set<Var>, ctx: Ctx)
    requires Ready(c, setup, first, vars) && setup.u !in vars
               && Keeps(first, later, Rel("eid", Ref(setup.u), Const(user)))
    requires Indexes(ctx, c, setup, later)
    ensures forall n <- c.exprs :: Suits(n, ctx, setup.u + 1)
    ensures QuietQuery(c, setup, first) ==> forall n <- c.exprs :: Quiet(n, ctx)
  {
    MappedAdds(c, setup, first, later, user, vars);
    hide Keeps, OnlyIn, IndexOf, Adds, ShareOf, Suits, Quiet, SuitsQuery, QuietQuery, UsableAreConditions, Named,
           Revvarmap;
    OnlyIsIndex(ctx.varinfos, c.mapped, first, later);
    forall n | n in c.exprs
      ensures Suits(n, ctx, setup.u + 1) && (QuietQuery(c, setup, first) ==> Quiet(n, ctx))
    {
      SuitsBefore(c, setup, first, OnlyIn(ctx.varinfos, first), n);
      SuitsAsBefore(c, setup, first, later, ctx, n);
    }
  }

  lemma StageIndexed(c: Check, setup: Setup, first: Node<Var>, later: Node<Var>, user: Val, vars: set<Var>, ctx: Ctx)
    requires Ready(c, setup, first, vars) && setup.u !in vars
               && Keeps(first, later, Rel("eid", Ref(setup.u), Const(user)))
    requires Indexes(ctx, c, setup, later)
    ensures Indexed(ctx, later)
  {
    hide Ready, Keeps, IndexedFor, ListsFor, Usable, RelationsAbout;
    forall i | 0 <= i < |ctx.varinfos|
      ensures IndexedFor(ctx.varinfos[i], later)
    {
      MappedTerm(c, setup, first, later, user, vars, c.mapped[i]);
      EntryIndexed(ctx.varinfos[i], c.mapped[i], later);
    }
  }

  lemma MappedTerm(c: Check, setup: Setup, first: Node<Var>, later: Node<Var>, user: Val, vars: set<Var>, m: Mapping)
    requires Ready(c, setup, first, vars) && setup.u !in vars
               && Keeps(first, later, Rel("eid", Ref(setup.u), Const(user)))
    requires m in c.mapped
    ensures forall o, target | o in RelationsAbout(later, target, m.term) :: Usable(o) ==> TopConjunct(o.node, later)
  {
    forall o, target | o in RelationsAbout(later, target, m.term) && Usable(o)
      ensures TopConjunct(o.node, later)
    {
      assert o in RelationsOf(first) && o in RelationsAbout(first, target, m.term);
    }
  }

  lemma EntryIndexed(vi: VarInfo, m: Mapping, where: Node<Var>)
    requires ListsFor(vi, m, where)
    requires forall o, target | o in RelationsAbout(where, target, m.term) :: Usable(o) ==> TopConjunct(o.node, where)
    ensures IndexedFor(vi, where)
  {
    forall r, o | r in vi.lhsRels && o in vi.lhsRels[r]
      ensures o in RelationsAbout(where, AsObject, m.term)
    {
    }
    forall r, o | r in vi.rhsRels && o in vi.rhsRels[r]
      ensures o in RelationsAbout(where, AsSubject, m.term)
    {
    }
  }
}
