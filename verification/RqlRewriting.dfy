/** What the rewritten query means: the query's own solutions, filtered by the alternatives that were inserted. */
module RqlRewritings {
  import opened RqlTrees
  import opened RqlSharing
  import opened RqlVisitors
  import opened RqlIndexes
  import opened RqlVisits
  import opened RqlSnippets
  import opened RqlRewriters
  import opened Wrappers

  // ----- hypotheses on the snippets

  /** A relation of its own is left of it, outside `Exists` and `Not`. */
  predicate NeedsWrap(n: Node<SnipVar>, drops: set<Node<SnipVar>>) {
    match n
    case And(l, r) => NeedsWrap(l, drops) || NeedsWrap(r, drops)
    case Or(l, r) => NeedsWrap(l, drops) || NeedsWrap(r, drops)
    case Rel(_, _, _) => n !in drops
    case _ => false
  }

  /** An `Exists` is put around what is inserted, or all the new variables are under an `Exists` already: two leaves
      have none in common, and a `Not` has none of its own. */
  predicate StaysApart(n: Node<SnipVar>, ctx: Ctx) {
    NeedsWrap(n, Drops(n, false, ctx)) || Local(n) <= Known(n, ctx)
  }

  /** The snippet's variables that stand for something of the query. */
  function Known(n: Node<SnipVar>, ctx: Ctx): set<SnipVar> {
    ctx.Fixed().Keys + Shared(n, false, ctx)
  }

  /** A relation that is left outside `Exists`, and not right under a `Not`. */
  predicate Offers(n: Node<SnipVar>, neged: bool, drops: set<Node<SnipVar>>)
    decreases n
  {
    match n
    case And(l, r) => Offers(l, false, drops) || Offers(r, false, drops)
    case Or(l, r) => Offers(l, false, drops) || Offers(r, false, drops)
    case Not(c) => Offers(c, true, drops)
    case Exists(_) => false
    case Rel(_, _, _) => !neged && n !in drops
  }

  /** An `Exists` is put around what is inserted, or no `Not` of it leaves a relation in the scope of the statement that
      looks like a condition of the query. */
  predicate Quiet(n: Node<SnipVar>, ctx: Ctx) {
    NeedsWrap(n, Drops(n, false, ctx)) || !Offers(n, false, Drops(n, false, ctx))
  }

  /** A snippet whose insertion keeps the meaning of the query and the number of its rows. */
  predicate Suits(n: Node<SnipVar>, ctx: Ctx, n0: Var) {
    Insertable(n, ctx, n0) && Matches(n, ctx) && StaysApart(n, ctx)
  }

  lemma {:induction false} SharesOnceLater(n: Node<SnipVar>, neged: bool, ctx: Ctx, n0: Var, n1: Var)
    requires SharesOnce(n, neged, ctx, n0) && n0 <= n1
    ensures SharesOnce(n, neged, ctx, n1)
    decreases n
  {
    match n
    case And(l, r) => SharesOnceLater(l, false, ctx, n0, n1); SharesOnceLater(r, false, ctx, n0, n1);
    case Or(l, r) => SharesOnceLater(l, false, ctx, n0, n1); SharesOnceLater(r, false, ctx, n0, n1);
    case Not(c) => SharesOnceLater(c, true, ctx, n0, n1);
    case Exists(c) => SharesOnceLater(c, false, ctx, n0, n1);
    case Rel(_, _, _) =>
  }

  // ----- the variables of what is inserted

  lemma {:induction false} ImageVars(n: Node<SnipVar>, w: Var, sh: Sharing)
    requires Vars(n) <= sh.sig.Keys && Rewritten(n, sh).Some? && w in Vars(Rewritten(n, sh).value)
    ensures exists v :: v in Vars(n) && sh.sig[v] == Ref(w)
  {
    match n
    case And(l, r) =>
      if Rewritten(l, sh).Some? && w in Vars(Rewritten(l, sh).value) {
        ImageVars(l, w, sh);
      } else {
        ImageVars(r, w, sh);
      }
    case Or(l, r) =>
      if Rewritten(l, sh).Some? && w in Vars(Rewritten(l, sh).value) {
        ImageVars(l, w, sh);
      } else {
        ImageVars(r, w, sh);
      }
    case Not(c) => ImageVars(c, w, sh);
    case Exists(c) => ImageVars(c, w, sh);
    case Rel(_, s, o) =>
  }

  lemma TermInScope(d: Node<SnipVar>, ctx: Ctx, where: Node<Var>, base: set<Var>, n0: Var)
    requires Indexed(ctx, where) && Local(where) <= base
    requires ShareOf(d, false, ctx).Some? && GoodShare(ShareOf(d, false, ctx).value, ctx, n0)
    ensures ShareOf(d, false, ctx).value.Term().v in Local(where)
  {
    UsedRelation(d, ctx, where);
    ConjunctIsLocal(ShareOf(d, false, ctx).value.orel, where);
  }

  lemma SharedInScope(n: Node<SnipVar>, ctx: Ctx, where: Node<Var>, base: set<Var>, n0: Var)
    requires Mapped(ctx, base, n0) && Indexed(ctx, where) && Local(where) <= base && Insertable(n, ctx, n0)
    ensures forall y <- Shared(n, false, ctx) ::
              y in StateAfter(n, ctx, n0).rewritten && StateAfter(n, ctx, n0).rewritten[y] in Local(where)
  {
    var fin := StateAfter(n, ctx, n0);
    VisitIsRewriting(n, ctx, base, n0);
    LeadsToItself(fin, n0, Shared(n, false, ctx), ctx);
    SharedTerms(n, false, Start(n0), fin, ctx, n0, {});
    DropsAreShares(n, false, ctx, n0);
    forall d | d in Drops(n, false, ctx)
      ensures ShareOf(d, false, ctx).value.Term().v in Local(where)
    {
      hide Drops, Shared, SharesOnce, Visit, DropsWell;
      TermInScope(d, ctx, where, base, n0);
    }
  }

  /** Each variable of what is inserted is one of the query's, or the new name of one variable that is not shared. */
  lemma NamesUsed(n: Node<SnipVar>, ctx: Ctx, where: Node<Var>, base: set<Var>, n0: Var, part: Node<SnipVar>, w: Var)
    requires Mapped(ctx, base, n0) && Indexed(ctx, where) && Local(where) <= base && Insertable(n, ctx, n0)
    requires Vars(part) <= Vars(n)
    requires var sh := SharingOf(n, StateAfter(n, ctx, n0), ctx);
             Rewritten(part, sh).Some? && w in Vars(Rewritten(part, sh).value) && w !in base
    ensures var fin := StateAfter(n, ctx, n0);
            && n0 <= w < fin.next
            && exists v :: v in Vars(part) && v !in ctx.Fixed() && v !in Shared(n, false, ctx)
                           && v in fin.rewritten && fin.rewritten[v] == w
  {
    var fin := StateAfter(n, ctx, n0);
    VisitIsRewriting(n, ctx, base, n0);
    SharedInScope(n, ctx, where, base, n0);
    ImageVars(part, w, SharingOf(n, fin, ctx));
  }

  /** What is inserted has no new variable outside `Exists` when the snippet has none. */
  lemma {:induction false} KnownStay(n: Node<SnipVar>, ctx: Ctx, where: Node<Var>, base: set<Var>, n0: Var,
                                     part: Node<SnipVar>)
    requires Mapped(ctx, base, n0) && Indexed(ctx, where) && Local(where) <= base && Insertable(n, ctx, n0)
    requires Vars(part) <= Vars(n) && Local(part) <= Known(n, ctx)
    ensures var m := Rewritten(part, SharingOf(n, StateAfter(n, ctx, n0), ctx)); m.Some? ==> Local(m.value) <= base
    decreases part
  {
    match part
    case And(_, _) => BothKnownStay(n, ctx, where, base, n0, part);
    case Or(_, _) => BothKnownStay(n, ctx, where, base, n0, part);
    case Not(c) => KnownStay(n, ctx, where, base, n0, c);
    case Exists(_) =>
    case Rel(_, _, _) =>
      var m := Rewritten(part, SharingOf(n, StateAfter(n, ctx, n0), ctx));
      if w :| m.Some? && w in Local(m.value) && w !in base {
        NamesUsed(n, ctx, where, base, n0, part, w);
      }
  }

  lemma {:induction false} BothKnownStay(n: Node<SnipVar>, ctx: Ctx, where: Node<Var>, base: set<Var>, n0: Var,
                                         part: Node<SnipVar>)
    requires part.And? || part.Or?
    requires Mapped(ctx, base, n0) && Indexed(ctx, where) && Local(where) <= base && Insertable(n, ctx, n0)
    requires Vars(part) <= Vars(n) && Local(part) <= Known(n, ctx)
    ensures var m := Rewritten(part, SharingOf(n, StateAfter(n, ctx, n0), ctx)); m.Some? ==> Local(m.value) <= base
    decreases part, 0
  {
    var sh := SharingOf(n, StateAfter(n, ctx, n0), ctx);
    var l, r := Rewritten(part.l, sh), Rewritten(part.r, sh);
    KnownStay(n, ctx, where, base, n0, part.l);
    KnownStay(n, ctx, where, base, n0, part.r);
    if l.Some? && r.Some? {
      forall w | w in Vars(l.value) * Vars(r.value)
        ensures w in base
      {
        if w !in base {
          SameName(n, ctx, where, base, n0, part.l, part.r, w);
        }
      }
    }
  }

  lemma SameName(n: Node<SnipVar>, ctx: Ctx, where: Node<Var>, base: set<Var>, n0: Var,
                 l: Node<SnipVar>, r: Node<SnipVar>, w: Var)
    requires Mapped(ctx, base, n0) && Indexed(ctx, where) && Local(where) <= base && Insertable(n, ctx, n0)
    requires Vars(l) + Vars(r) <= Vars(n) && w !in base
    requires var sh := SharingOf(n, StateAfter(n, ctx, n0), ctx);
             && Rewritten(l, sh).Some? && w in Vars(Rewritten(l, sh).value)
             && Rewritten(r, sh).Some? && w in Vars(Rewritten(r, sh).value)
    ensures exists v :: v in Vars(l) * Vars(r) && v !in ctx.Fixed() && v !in Shared(n, false, ctx)
  {
    var fin := StateAfter(n, ctx, n0);
    VisitIsRewriting(n, ctx, base, n0);
    NamesUsed(n, ctx, where, base, n0, l, w);
    NamesUsed(n, ctx, where, base, n0, r, w);
    var v :| v in Vars(l) && v !in ctx.Fixed() && v !in Shared(n, false, ctx) && v in fin.rewritten
        && fin.rewritten[v] == w;
    var v' :| v' in Vars(r) && v' !in ctx.Fixed() && v' !in Shared(n, false, ctx) && v' in fin.rewritten
        && fin.rewritten[v'] == w;
    assert v in fin.rewritten.Keys - Shared(n, false, ctx) && v' in fin.rewritten.Keys - Shared(n, false, ctx);
  }

  lemma {:induction false} WrapOfRest(n: Node<SnipVar>, sh: Sharing)
    ensures match Rewritten(n, sh)
            case None => !NeedsWrap(n, sh.drops)
            case Some(m) => NeedExists(m) <==> NeedsWrap(n, sh.drops)
  {
    match n
    case And(l, r) => WrapOfRest(l, sh); WrapOfRest(r, sh);
    case Or(l, r) => WrapOfRest(l, sh); WrapOfRest(r, sh);
    case _ =>
  }

  /** A variable that is neither mapped nor shared is in no relation that is dropped: its new name stays. */
  lemma {:induction false} NewNamesStay(n: Node<SnipVar>, ctx: Ctx, n0: Var, part: Node<SnipVar>, v: SnipVar)
    requires SharesOnce(n, false, ctx, n0) && v !in Known(n, ctx)
    requires Vars(n) <= ctx.Fixed().Keys + StateAfter(n, ctx, n0).rewritten.Keys && Vars(part) <= Vars(n)
               && v in Vars(part)
    ensures var m := Rewritten(part, SharingOf(n, StateAfter(n, ctx, n0), ctx));
            m.Some? && StateAfter(n, ctx, n0).rewritten[v] in Vars(m.value)
    decreases part
  {
    match part
    case And(l, r) => if v in Vars(l) { NewNamesStay(n, ctx, n0, l, v); } else { NewNamesStay(n, ctx, n0, r, v); }
    case Or(l, r) => if v in Vars(l) { NewNamesStay(n, ctx, n0, l, v); } else { NewNamesStay(n, ctx, n0, r, v); }
    case Not(c) => NewNamesStay(n, ctx, n0, c, v);
    case Exists(c) => NewNamesStay(n, ctx, n0, c, v);
    case Rel(_, s, o) =>
      if part in Drops(n, false, ctx) {
        DropsAreShares(n, false, ctx, n0);
        DropBetween(part, ctx, n0);
      }
  }

  lemma DropBetween(d: Node<SnipVar>, ctx: Ctx, n0: Var)
    requires ShareOf(d, false, ctx).Some? && GoodShare(ShareOf(d, false, ctx).value, ctx, n0)
    ensures Vars(d) == {ShareOf(d, false, ctx).value.x, ShareOf(d, false, ctx).value.y}
    ensures ShareOf(d, false, ctx).value.x in ctx.Fixed()
  {
  }

  /** A new variable that the snippet has outside `Exists` is outside `Exists` in what is inserted. */
  lemma {:induction false} NewLocalsStay(n: Node<SnipVar>, ctx: Ctx, n0: Var, part: Node<SnipVar>, v: SnipVar)
    requires SharesOnce(n, false, ctx, n0) && v !in Known(n, ctx)
    requires Vars(n) <= ctx.Fixed().Keys + StateAfter(n, ctx, n0).rewritten.Keys && Vars(part) <= Vars(n)
               && v in Local(part)
    ensures var m := Rewritten(part, SharingOf(n, StateAfter(n, ctx, n0), ctx));
            m.Some? && StateAfter(n, ctx, n0).rewritten[v] in Local(m.value)
    decreases part
  {
    match part
    case And(l, r) => BothNewLocalsStay(n, ctx, n0, part, v);
    case Or(l, r) => BothNewLocalsStay(n, ctx, n0, part, v);
    case Not(c) => NewLocalsStay(n, ctx, n0, c, v);
    case Exists(_) =>
    case Rel(_, _, _) => NewNamesStay(n, ctx, n0, part, v);
  }

  lemma {:induction false} BothNewLocalsStay(n: Node<SnipVar>, ctx: Ctx, n0: Var, part: Node<SnipVar>, v: SnipVar)
    requires part.And? || part.Or?
    requires SharesOnce(n, false, ctx, n0) && v !in Known(n, ctx)
    requires Vars(n) <= ctx.Fixed().Keys + StateAfter(n, ctx, n0).rewritten.Keys && Vars(part) <= Vars(n)
               && v in Local(part)
    ensures var m := Rewritten(part, SharingOf(n, StateAfter(n, ctx, n0), ctx));
            m.Some? && StateAfter(n, ctx, n0).rewritten[v] in Local(m.value)
    decreases part, 0
  {
    if v in Local(part.l) {
      NewLocalsStay(n, ctx, n0, part.l, v);
    } else if v in Local(part.r) {
      NewLocalsStay(n, ctx, n0, part.r, v);
    } else {
      NewNamesStay(n, ctx, n0, part.l, v);
      NewNamesStay(n, ctx, n0, part.r, v);
    }
  }

  /** What is inserted brings a new variable into the scope of the statement exactly when it is not wrapped in an
      `Exists` and the snippet has a new variable outside `Exists`. */
  lemma LocalRoot(e: Entry, ctx: Ctx, where: Node<Var>, base: set<Var>)
    requires Mapped(ctx, base, e.start) && Indexed(ctx, where) && Local(where) <= base
    requires Insertable(e.snip, ctx, e.start) && Inserted(e.snip, ctx, e.start).Some?
    ensures Local(Root(e, ctx)) <= base <==> StaysApart(e.snip, ctx)
  {
    var sh := SharingOf(e.snip, StateAfter(e.snip, ctx, e.start), ctx);
    VisitIsRewriting(e.snip, ctx, base, e.start);
    WrapOfRest(e.snip, sh);
    if !NeedsWrap(e.snip, sh.drops) {
      if Local(e.snip) <= Known(e.snip, ctx) {
        KnownStay(e.snip, ctx, where, base, e.start, e.snip);
      } else {
        NewLocalIsLocal(e.snip, ctx, base, e.start);
      }
    }
  }

  lemma NewLocalIsLocal(n: Node<SnipVar>, ctx: Ctx, base: set<Var>, n0: Var)
    requires Mapped(ctx, base, n0) && Insertable(n, ctx, n0) && !(Local(n) <= Known(n, ctx))
               && Inserted(n, ctx, n0).Some?
    ensures !(Local(Inserted(n, ctx, n0).value) <= base)
  {
    var v :| v in Local(n) && v !in Known(n, ctx);
    VisitIsRewriting(n, ctx, base, n0);
    NewLocalsStay(n, ctx, n0, n, v);
    var fin := StateAfter(n, ctx, n0);
    assert v in fin.rewritten.Keys - Shared(n, false, ctx) && fin.rewritten[v] !in base;
  }

  /** Which relations of what is left of a snippet may be used for later snippets: those that it offers. */
  lemma {:induction false} OfferedIsUsable(part: Node<SnipVar>, neged: bool, sh: Sharing)
    requires DropsWell(part, sh.drops) && (neged ==> DropsNothing(part, sh.drops)) && Rewritten(part, sh).Some?
    ensures Offers(part, neged, sh.drops) <==>
              exists o :: o in RelationsIn(Rewritten(part, sh).value, true, neged) && Usable(o)
    decreases part
  {
    match part
    case And(_, _) => BothOffer(part, neged, sh);
    case Or(_, _) => BothOffer(part, neged, sh);
    case Not(c) =>
      NothingDropped(c, sh);
      OfferedIsUsable(c, true, sh);
    case Exists(c) => OutOfScope(Rewritten(c, sh).value, false);
    case Rel(_, _, _) =>
      var o := OrigRel(Rewritten(part, sh).value, true, neged);
      assert RelationsIn(Rewritten(part, sh).value, true, neged) == {o};
  }

  lemma {:induction false} BothOffer(part: Node<SnipVar>, neged: bool, sh: Sharing)
    requires part.And? || part.Or?
    requires DropsWell(part, sh.drops) && (neged ==> DropsNothing(part, sh.drops)) && Rewritten(part, sh).Some?
    ensures Offers(part, neged, sh.drops) <==>
              exists o :: o in RelationsIn(Rewritten(part, sh).value, true, neged) && Usable(o)
    decreases part, 0
  {
    var l, r := part.l, part.r;
    if part.Or? || neged {
      NothingDropped(l, sh);
      NothingDropped(r, sh);
    }
    if Rewritten(l, sh).Some? {
      OfferedIsUsable(l, false, sh);
    } else {
      NothingOffered(l, sh);
    }
    if Rewritten(r, sh).Some? {
      OfferedIsUsable(r, false, sh);
    } else {
      NothingOffered(r, sh);
    }
  }

  lemma {:induction false} NothingOffered(n: Node<SnipVar>, sh: Sharing)
    requires Rewritten(n, sh).None?
    ensures forall neged :: !Offers(n, neged, sh.drops)
  {
    match n
    case And(l, r) => NothingOffered(l, sh); NothingOffered(r, sh);
    case Or(l, r) => NothingOffered(l, sh); NothingOffered(r, sh);
    case Not(c) => NothingOffered(c, sh);
    case Exists(_) =>
    case Rel(_, _, _) =>
  }

  predicate NothingUsable(n: Node<Var>) {
    forall o <- RelationsOf(n) :: !Usable(o)
  }

  lemma {:induction false} OutOfScope(n: Node<Var>, neged: bool)
    ensures forall o <- RelationsIn(n, false, neged) :: !o.inScope
  {
    match n
    case And(l, r) => OutOfScope(l, false); OutOfScope(r, false);
    case Or(l, r) => OutOfScope(l, false); OutOfScope(r, false);
    case Not(c) => OutOfScope(c, true);
    case Exists(c) => OutOfScope(c, false);
    case Rel(_, _, _) =>
  }

  /** A relation that was inserted may be used for later snippets exactly when the snippet is not quiet. */
  lemma QuietRoot(e: Entry, ctx: Ctx, base: set<Var>)
    requires Mapped(ctx, base, e.start) && Insertable(e.snip, ctx, e.start) && Inserted(e.snip, ctx, e.start).Some?
    ensures NothingUsable(Root(e, ctx)) <==> Quiet(e.snip, ctx)
  {
    var sh := SharingOf(e.snip, StateAfter(e.snip, ctx, e.start), ctx);
    VisitIsRewriting(e.snip, ctx, base, e.start);
    WrapOfRest(e.snip, sh);
    if NeedsWrap(e.snip, sh.drops) {
      OutOfScope(Inserted(e.snip, ctx, e.start).value, false);
    } else {
      OfferedIsUsable(e.snip, false, sh);
    }
  }

  /** What is inserted uses the query's variables, and new names from `start` on. */
  lemma RootNames(e: Entry, ctx: Ctx, where: Node<Var>, base: set<Var>)
    requires Mapped(ctx, base, e.start) && Indexed(ctx, where) && Local(where) <= base
    requires Suits(e.snip, ctx, e.start) && Inserted(e.snip, ctx, e.start).Some?
    ensures Local(Root(e, ctx)) <= base
    ensures forall w <- Vars(Root(e, ctx)) :: w in base || e.start <= w < StateAfter(e.snip, ctx, e.start).next
  {
    VisitIsRewriting(e.snip, ctx, base, e.start);
    LocalRoot(e, ctx, where, base);
    forall w | w in Vars(Root(e, ctx)) && w !in base
      ensures e.start <= w < StateAfter(e.snip, ctx, e.start).next
    {
      NamesUsed(e.snip, ctx, where, base, e.start, e.snip, w);
    }
  }

  // ----- the meaning of what is inserted

  /** `Exists` is put where it is needed: at the root, what is inserted says that some values
      for the variables of its scope make it hold. */
  lemma RootMeans(m: Node<Var>, f: Env<Var>, base: set<Var>, db: Db)
    requires base <= f.Keys && Local(InsertedRoot(m)) <= base
    ensures Eval(InsertedRoot(m), f, base, db) <==> Sat(m, f, base, db)
  {
    if !NeedExists(m) {
      SatWhenBound(m, f, base, db);
    }
  }

  lemma EntryMeans(e: Entry, ctx: Ctx, where: Node<Var>, at: Site)
    requires Fits(ctx, where, e.start, at) && Suits(e.snip, ctx, e.start)
    ensures match Inserted(e.snip, ctx, e.start)
            case None => Holds(e.snip, ctx, at.f0, at.db)
            case Some(m) => Eval(InsertedRoot(m), at.f0, at.base, at.db) <==> Holds(e.snip, ctx, at.f0, at.db)
  {
    MatchesEverywhere(e.snip, ctx, at.f0);
    InsertedMeansMatching(e.snip, ctx, where, e.start, at);
    if Inserted(e.snip, ctx, e.start).Some? {
      RootNames(e, ctx, where, at.base);
      RootMeans(Inserted(e.snip, ctx, e.start).value, at.f0, at.base, at.db);
    }
  }

  lemma {:induction false} ChainMeans(first: Node<Var>, rest: seq<Node<Var>>, f: Env<Var>, base: set<Var>, db: Db)
    ensures Eval(Chain(first, rest), f, base, db) <==>
              Eval(first, f, base, db) || exists r <- rest :: Eval(r, f, base, db)
  {
    if rest != [] {
      ChainMeans(first, rest[1..], f, base, db);
      assert Eval(Chain(first, rest), f, base, db) <==>
                Eval(Chain(first, rest[1..]), f, base, db) || Eval(rest[0], f, base, db);
      assert forall r :: r in rest <==> r == rest[0] || r in rest[1..];
    }
  }

  /** All of the roots, alternatives to one another. */
  lemma ShapeMeans(w: Node<Var>, user: Node<Var>, roots: seq<Node<Var>>, when: When, f: Env<Var>, base: set<Var>,
                   db: Db)
    ensures Eval(Shape(w, user, roots, when), f, base, db) <==>
              && Eval(w, f, base, db)
              && (when != Never ==> Eval(user, f, base, db))
              && (roots == [] || exists r <- roots :: Eval(r, f, base, db))
  {
    if roots != [] {
      ChainMeans(roots[0], roots[1..], f, base, db);
      assert forall r :: r in roots <==> r == roots[0] || r in roots[1..];
    }
  }

  // ----- all the snippets of a variable

  /** What may be inserted for the entries of `log` in the query `where`, with new names from `n0` to `hi`. */
  ghost predicate Suited(log: seq<Entry>, ctx: Ctx, n0: Var) {
    forall e <- log :: Told(e, ctx) && n0 <= e.start && Suits(e.snip, ctx, n0)
  }

  lemma {:induction false} StartsInOrder(log: seq<Entry>, ctx: Ctx, lo: Var, hi: Var)
    requires InOrder(log, ctx, lo, hi)
    ensures lo <= hi
    ensures forall e <- log :: lo <= e.start <= hi && StateAfter(e.snip, ctx, e.start).next <= hi
  {
    if log != [] {
      var e := log[|log| - 1];
      StartsInOrder(log[..|log| - 1], ctx, lo, e.start);
      assert forall d :: d in log <==> d in log[..|log| - 1] || d == e;
    }
  }

  lemma SuitsLater(n: Node<SnipVar>, ctx: Ctx, base: set<Var>, n0: Var, n1: Var)
    requires Suits(n, ctx, n0) && Mapped(ctx, base, n0) && n0 <= n1
    ensures Suits(n, ctx, n1) && Mapped(ctx, base, n1)
  {
    SharesOnceLater(n, false, ctx, n0, n1);
  }

  /** The roots that are in the query, and the snippets that were accepted, hold alike. */
  lemma {:induction false} LogMeans(log: seq<Entry>, ctx: Ctx, where: Node<Var>, n0: Var, at: Site)
    requires Fits(ctx, where, n0, at) && Suited(log, ctx, n0)
    ensures (exists r <- Roots(log, ctx) :: Eval(r, at.f0, at.base, at.db)) <==>
            (exists e <- log :: e.verdict == Accepted && Holds(e.snip, ctx, at.f0, at.db))
    ensures Roots(log, ctx) == [] <==> forall e <- log :: e.verdict != Accepted
    ensures forall e <- log :: e.verdict == Collapsed ==> Holds(e.snip, ctx, at.f0, at.db)
  {
    if log != [] {
      var e := log[|log| - 1];
      assert e in log;
      LogMeans(log[..|log| - 1], ctx, where, n0, at);
      SuitsLater(e.snip, ctx, at.base, n0, e.start);
      EntryMeans(e, ctx, where, at);
      LastEntry(log, ctx);
    }
  }

  lemma LastEntry(log: seq<Entry>, ctx: Ctx)
    requires log != [] && forall e <- log :: Told(e, ctx)
    ensures forall d :: d in log <==> d in log[..|log| - 1] || d == log[|log| - 1]
    ensures Told(log[|log| - 1], ctx)
    ensures forall r :: r in Roots(log, ctx) <==>
              || r in Roots(log[..|log| - 1], ctx)
              || (log[|log| - 1].verdict == Accepted && r == Root(log[|log| - 1], ctx))
    ensures Roots(log, ctx) == [] <==> Roots(log[..|log| - 1], ctx) == [] && log[|log| - 1].verdict != Accepted
  {
  }

  /** What the alternatives that were inserted let through. */
  ghost predicate Allows(log: seq<Entry>, ctx: Ctx, f: Env<Var>, db: Db) {
    (forall e <- log :: e.verdict != Accepted) || exists e <- log :: e.verdict == Accepted && Holds(e.snip, ctx, f, db)
  }

  /** What the snippets that were not rejected allow. */
  ghost predicate Granted(log: seq<Entry>, ctx: Ctx, f: Env<Var>, db: Db) {
    exists e <- log :: e.verdict != Rejected && Holds(e.snip, ctx, f, db)
  }

  /** The solutions that stay are the ones that the inserted snippets let through. */
  lemma ShapeAllows(log: seq<Entry>, ctx: Ctx, where: Node<Var>, user: Node<Var>, when: When, n0: Var, at: Site)
    requires Suited(log, ctx, n0) && Eval(user, at.f0, at.base, at.db)
    requires Eval(where, at.f0, at.base, at.db) ==> Fits(ctx, where, n0, at)
    ensures Eval(Shape(where, user, Roots(log, ctx), when), at.f0, at.base, at.db) <==>
            Eval(where, at.f0, at.base, at.db) && Allows(log, ctx, at.f0, at.db)
  {
    ShapeMeans(where, user, Roots(log, ctx), when, at.f0, at.base, at.db);
    if Eval(where, at.f0, at.base, at.db) {
      LogMeans(log, ctx, where, n0, at);
    }
  }

  /** No solution is let through that the snippets do not grant. One that they grant is let through, unless
      it owes that to a snippet of which nothing was left to insert. */
  lemma AllowsWhatIsGranted(log: seq<Entry>, ctx: Ctx, where: Node<Var>, n0: Var, at: Site)
    requires Fits(ctx, where, n0, at) && Suited(log, ctx, n0)
    requires exists e <- log :: e.verdict != Rejected
    ensures Granted(log, ctx, at.f0, at.db) <==>
              Allows(log, ctx, at.f0, at.db) || exists e <- log :: e.verdict == Collapsed
  {
    LogMeans(log, ctx, where, n0, at);
  }

  // ----- names

  ghost predicate NamesBetween(vs: set<Var>, base: set<Var>, lo: Var, hi: Var) {
    forall w <- vs :: w in base || lo <= w < hi
  }

  /** Roots use names of their own. */
  ghost predicate RootsApart(roots: seq<Node<Var>>, base: set<Var>, lo: Var, hi: Var) {
    && (forall r <- roots :: Local(r) <= base && NamesBetween(Vars(r), base, lo, hi))
    && (forall i, j | 0 <= i < j < |roots| :: Vars(roots[i]) * Vars(roots[j]) <= base)
  }

  lemma RootsApartMore(roots: seq<Node<Var>>, m: Node<Var>, base: set<Var>, lo: Var, mid: Var, hi: Var)
    requires RootsApart(roots, base, lo, mid) && lo <= mid <= hi
    requires Local(m) <= base && NamesBetween(Vars(m), base, mid, hi)
    ensures RootsApart(roots + [m], base, lo, hi)
  {
    forall i, j | 0 <= i < j < |roots + [m]|
      ensures Vars((roots + [m])[i]) * Vars((roots + [m])[j]) <= base
    {
      if j == |roots| {
        assert roots[i] in roots;
      }
    }
  }

  lemma RootsApartWider(roots: seq<Node<Var>>, base: set<Var>, lo: Var, mid: Var, hi: Var)
    requires RootsApart(roots, base, lo, mid) && mid <= hi
    ensures RootsApart(roots, base, lo, hi)
  {
  }

  lemma {:induction false} LogNames(log: seq<Entry>, ctx: Ctx, where: Node<Var>, base: set<Var>, n0: Var, hi: Var)
    requires Mapped(ctx, base, n0) && Indexed(ctx, where) && Local(where) <= base
    requires Suited(log, ctx, n0) && InOrder(log, ctx, n0, hi)
    ensures RootsApart(Roots(log, ctx), base, n0, hi)
  {
    if log != [] {
      var e := log[|log| - 1];
      var before := log[..|log| - 1];
      assert e in log && Told(e, ctx) && Suits(e.snip, ctx, n0);
      assert forall d <- before :: d in log;
      StartsInOrder(before, ctx, n0, e.start);
      LogNames(before, ctx, where, base, n0, e.start);
      if e.verdict == Accepted {
        SuitsLater(e.snip, ctx, base, n0, e.start);
        RootNames(e, ctx, where, base);
        RootsApartMore(Roots(before, ctx), Root(e, ctx), base, n0, e.start, hi);
      } else {
        RootsApartWider(Roots(before, ctx), base, n0, e.start, hi);
      }
    }
  }

  lemma {:induction false} ChainNames(first: Node<Var>, rest: seq<Node<Var>>, base: set<Var>, lo: Var, hi: Var)
    requires RootsApart([first] + rest, base, lo, hi)
    ensures Local(Chain(first, rest)) <= base && NamesBetween(Vars(Chain(first, rest)), base, lo, hi)
    ensures forall w <- Vars(Chain(first, rest)) :: w in Vars(first) || exists i | 0 <= i < |rest| :: w in Vars(rest[i])
  {
    var roots := [first] + rest;
    assert first == roots[0] && first in roots;
    if rest != [] {
      ApartWithoutSecond(first, rest, base, lo, hi);
      ChainNames(first, rest[1..], base, lo, hi);
      assert rest[0] == roots[1] && rest[0] in roots;
      forall w | w in Vars(Chain(first, rest[1..])) && w in Vars(rest[0])
        ensures w in base
      {
        if w in Vars(first) {
          assert w in Vars(roots[0]) * Vars(roots[1]);
        } else {
          var i :| 0 <= i < |rest[1..]| && w in Vars(rest[1..][i]);
          assert w in Vars(roots[1]) * Vars(roots[i + 2]);
        }
      }
    }
  }

  lemma ApartWithoutSecond(first: Node<Var>, rest: seq<Node<Var>>, base: set<Var>, lo: Var, hi: Var)
    requires RootsApart([first] + rest, base, lo, hi) && rest != []
    ensures RootsApart([first] + rest[1..], base, lo, hi)
  {
    var roots, fewer := [first] + rest, [first] + rest[1..];
    forall i | 0 <= i < |fewer|
      ensures fewer[i] == roots[if i == 0 then 0 else i + 1]
    {
    }
  }

  /** The rewritten query has no other variables in its scope, and uses new names only. */
  lemma ShapeNames(w: Node<Var>, user: Node<Var>, roots: seq<Node<Var>>, when: When, base: set<Var>, lo: Var, hi: Var)
    requires Local(w) <= base && (forall v <- Vars(w) :: v < lo) && lo <= hi && (forall v <- base :: v < lo)
    requires Vars(user) <= base && RootsApart(roots, base, lo, hi)
    ensures Local(Shape(w, user, roots, when)) <= base
    ensures forall v <- Vars(Shape(w, user, roots, when)) :: v < hi
  {
    if roots != [] {
      assert [roots[0]] + roots[1..] == roots;
      ChainNames(roots[0], roots[1..], base, lo, hi);
    }
  }
}
