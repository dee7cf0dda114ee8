/** What the visitor builds means the same, in the query, as the snippet does. */
module RqlSnippets {
  import opened RqlTrees
  import opened RqlSharing
  import opened RqlVisitors
  import opened RqlVisits
  import opened Wrappers

  // ----- the query that a snippet is inserted in

  predicate TopConjunct(d: Node<Var>, w: Node<Var>) {
    d == w || (w.And? && (TopConjunct(d, w.l) || TopConjunct(d, w.r)))
  }

  /** The index that the rewriter makes of the query: relations under the variable that they are about;
      those that may be used in place of the snippet's are conditions that every solution meets. */
  ghost predicate Indexed(ctx: Ctx, where: Node<Var>) {
    forall vi <- ctx.varinfos :: IndexedFor(vi, where)
  }

  ghost predicate IndexedFor(vi: VarInfo, where: Node<Var>) {
    && (forall r <- vi.lhsRels :: forall o <- vi.lhsRels[r] ::
          && o.node.Rel? && o.node.rtype == r && o.node.s == vi.term
          && (Usable(o) ==> TopConjunct(o.node, where)))
    && (forall r <- vi.rhsRels :: forall o <- vi.rhsRels[r] ::
          && o.node.Rel? && o.node.rtype == r && o.node.o == vi.term
          && (Usable(o) ==> TopConjunct(o.node, where)))
  }

  /** A database that keeps to its schema: relations link the types that the schema says, and where it says
      '1' or '?' there is at most one target. */
  ghost predicate Conforms(db: Db, s: Schema) {
    && (forall r, a, b :: db.rel(r, a, b) ==>
          db.typeOf(b) in s.objects(r, db.typeOf(a)) && db.typeOf(a) in s.subjects(r, db.typeOf(b)))
    && (forall r, a, b, u | db.rel(r, a, b) && db.rel(r, a, u) ::
          b == u || Many(s.cardinality(r, db.typeOf(a), db.typeOf(b)).0)
              || Many(s.cardinality(r, db.typeOf(a), db.typeOf(u)).0))
    && (forall r, a, b, u | db.rel(r, b, a) && db.rel(r, u, a) ::
          b == u || Many(s.cardinality(r, db.typeOf(b), db.typeOf(a)).1)
              || Many(s.cardinality(r, db.typeOf(u), db.typeOf(a)).1))
  }

  /** `f0` gives values to the query's variables, of the types that the analysis of the query found. */
  ghost predicate Values(f0: Env<Var>, base: set<Var>, ctx: Ctx, db: Db) {
    && base <= f0.Keys
    && (forall w <- base :: f0[w] in db.dom)
    && (forall vi <- ctx.varinfos :: db.typeOf(ValueOf(vi.term, f0)) in vi.possibleTypes)
  }

  /** The mapped terms are in the scope of the statement; the names from `n0` on are not used. */
  ghost predicate Mapped(ctx: Ctx, base: set<Var>, n0: Var) {
    && "U" !in ctx.revvarmap
    && (forall w <- base :: w < n0)
    && (forall x <- ctx.Fixed() :: ctx.Fixed()[x].Ref? ==> ctx.Fixed()[x].v in base)
  }

  /** The values `at.f0` are a solution of the query `where`. */
  ghost predicate Fits(ctx: Ctx, where: Node<Var>, n0: Var, at: Site) {
    && Mapped(ctx, at.base, n0) && Indexed(ctx, where)
    && Conforms(at.db, ctx.schema) && Values(at.f0, at.base, ctx, at.db)
    && Local(where) <= at.base && Eval(where, at.f0, at.base, at.db)
  }

  // ----- the relations of the query that are used

  lemma {:induction false} ConjunctHolds(d: Node<Var>, w: Node<Var>, f: Env<Var>, base: set<Var>, db: Db)
    requires TopConjunct(d, w) && Eval(w, f, base, db)
    ensures Eval(d, f, base, db)
  {
    if d != w {
      if TopConjunct(d, w.l) { ConjunctHolds(d, w.l, f, base, db); } else { ConjunctHolds(d, w.r, f, base, db); }
    }
  }

  lemma {:induction false} ConjunctIsLocal(d: Node<Var>, w: Node<Var>)
    requires TopConjunct(d, w)
    ensures Local(d) <= Local(w)
  {
    if d != w {
      if TopConjunct(d, w.l) { ConjunctIsLocal(d, w.l); } else { ConjunctIsLocal(d, w.r); }
    }
  }

  lemma {:induction false} FoundRelation(r: string, target: Side, vis: seq<VarInfo>, s: Schema)
    requires MayBeSharedWith(r, target, vis, s).Some?
    ensures var (vi, orel) := MayBeSharedWith(r, target, vis, s).value;
            && vi in vis
            && (target == AsObject ==>
                  && !MultipleObjects(r, vi.possibleTypes, s) && r in vi.lhsRels
                  && exists o :: o in vi.lhsRels[r] && Usable(o) && o.node == orel)
            && (target == AsSubject ==>
                  && !MultipleSubjects(r, vi.possibleTypes, s) && r in vi.rhsRels
                  && exists o :: o in vi.rhsRels[r] && Usable(o) && o.node == orel)
  {
    if Serves(r, target, vis[0], s) {
      assert CompatibleRelation(RelsFor(target, vis[0])[r]).value in RelsFor(target, vis[0])[r];
    } else {
      FoundRelation(r, target, vis[1..], s);
    }
  }

  /** The snippet's relation and the query's that is used instead of it. */
  lemma UsedRelation(d: Node<SnipVar>, ctx: Ctx, where: Node<Var>)
    requires Indexed(ctx, where) && ShareOf(d, false, ctx).Some?
    ensures var sh := ShareOf(d, false, ctx).value;
            && sh.orel.Rel? && TopConjunct(sh.orel, where) && sh.orel.rtype == d.rtype
            && (exists vi <- ctx.varinfos :: vi.term == sh.about && vi.possibleTypes == sh.types)
            && (sh.target == AsObject ==>
                  && d.s == Ref(sh.x) && d.o == Ref(sh.y) && sh.orel.s == sh.about
                  && !MultipleObjects(d.rtype, sh.types, ctx.schema))
            && (sh.target == AsSubject ==>
                  && d.o == Ref(sh.x) && d.s == Ref(sh.y) && sh.orel.o == sh.about
                  && !MultipleSubjects(d.rtype, sh.types, ctx.schema))
  {
    var target := ShareOf(d, false, ctx).value.target;
    FoundRelation(d.rtype, target, ctx.varinfos, ctx.schema);
    var (vi, orel) := MayBeSharedWith(d.rtype, target, ctx.varinfos, ctx.schema).value;
    assert vi in ctx.varinfos;
  }

  /** With one variable in the map, the relation used is always one of the mapped variable. */
  lemma OneMappedVariable(d: Node<SnipVar>, ctx: Ctx, where: Node<Var>)
    requires Indexed(ctx, where) && ShareOf(d, false, ctx).Some?
    requires |ctx.varinfos| == 1 && forall x <- ctx.revvarmap :: ctx.revvarmap[x] == ctx.varinfos[0].term
    ensures var sh := ShareOf(d, false, ctx).value; sh.x in ctx.revvarmap && sh.about == ctx.revvarmap[sh.x]
  {
    UsedRelation(d, ctx, where);
  }

  lemma OnlyObject(r: string, a: Val, b: Val, u: Val, etypes: set<EType>, s: Schema, db: Db)
    requires Conforms(db, s) && db.typeOf(a) in etypes && !MultipleObjects(r, etypes, s)
    requires db.rel(r, a, b) && db.rel(r, a, u)
    ensures u == b
  {
  }

  lemma OnlySubject(r: string, a: Val, b: Val, u: Val, etypes: set<EType>, s: Schema, db: Db)
    requires Conforms(db, s) && db.typeOf(a) in etypes && !MultipleSubjects(r, etypes, s)
    requires db.rel(r, b, a) && db.rel(r, u, a)
    ensures u == b
  {
  }

  /** The term that is used instead of the snippet's variable is the only one that the mapped term is linked to. */
  lemma OnlyTarget(d: Node<SnipVar>, ctx: Ctx, where: Node<Var>, n0: Var, at: Site)
    requires Fits(ctx, where, n0, at)
    requires ShareOf(d, false, ctx).Some? && GoodShare(ShareOf(d, false, ctx).value, ctx, n0)
    ensures var share := ShareOf(d, false, ctx).value;
            var a, b := ValueOf(ctx.revvarmap[share.x], at.f0), ValueOf(share.Term(), at.f0);
            if share.target == AsObject then at.db.rel(d.rtype, a, b) && forall u :: at.db.rel(d.rtype, a, u) ==> u == b
            else at.db.rel(d.rtype, b, a) && forall u :: at.db.rel(d.rtype, u, a) ==> u == b
  {
    var share := ShareOf(d, false, ctx).value;
    UsedRelation(d, ctx, where);
    ConjunctHolds(share.orel, where, at.f0, at.base, at.db);
    var a, b := ValueOf(ctx.revvarmap[share.x], at.f0), ValueOf(share.Term(), at.f0);
    if share.target == AsObject {
      forall u | at.db.rel(d.rtype, a, u) ensures u == b {
        OnlyObject(d.rtype, a, b, u, share.types, ctx.schema, at.db);
      }
    } else {
      forall u | at.db.rel(d.rtype, u, a) ensures u == b {
        OnlySubject(d.rtype, a, b, u, share.types, ctx.schema, at.db);
      }
    }
  }

  /** The snippet's relation is stated by the query, for the value that the query's term has. */
  lemma ShareIsStated(d: Node<SnipVar>, ctx: Ctx, where: Node<Var>, sh: Sharing, at: Site, n0: Var)
    requires Fits(ctx, where, n0, at)
    requires ShareOf(d, false, ctx).Some? && GoodShare(ShareOf(d, false, ctx).value, ctx, n0)
    requires var share := ShareOf(d, false, ctx).value;
             && share.x in sh.fixed && (share.y in sh.shared || share.y in sh.fixed) && share.x in sh.sig
                 && share.y in sh.sig
             && sh.sig[share.x] == ctx.revvarmap[share.x]
             && ValueOf(sh.sig[share.y], at.f0) == ValueOf(share.Term(), at.f0)
    ensures var share := ShareOf(d, false, ctx).value; States(d, share.x, share.y, sh, at)
  {
    OnlyTarget(d, ctx, where, n0, at);
    UsedRelation(d, ctx, where);
  }

  // ----- what is dropped

  lemma {:induction false} DropsAreShares(n: Node<SnipVar>, neged: bool, ctx: Ctx, n0: Var)
    requires SharesOnce(n, neged, ctx, n0)
    ensures forall d <- Drops(n, neged, ctx) :: ShareOf(d, false, ctx).Some?
              && GoodShare(ShareOf(d, false, ctx).value, ctx, n0)
                  && ShareOf(d, false, ctx).value.y in Shared(n, neged, ctx)
    ensures forall y <- Shared(n, neged, ctx) :: exists d ::
              d in Drops(n, neged, ctx) && ShareOf(d, false, ctx).value.y == y
    decreases n
  {
    match n
    case And(l, r) => DropsAreShares(l, false, ctx, n0); DropsAreShares(r, false, ctx, n0);
    case Or(l, r) => DropsAreShares(l, false, ctx, n0); DropsAreShares(r, false, ctx, n0);
    case Not(c) => DropsAreShares(c, true, ctx, n0);
    case Exists(c) => DropsAreShares(c, false, ctx, n0);
    case Rel(_, _, _) =>
      if ShareOf(n, neged, ctx).Some? {
        assert n in Drops(n, neged, ctx);
      }
  }

  lemma {:induction false} NothingAgrees(n: Node<SnipVar>, neged: bool, ctx: Ctx, drops: set<Node<SnipVar>>)
    requires Drops(n, neged, ctx) <= drops && DropsNothing(n, drops)
    ensures DropsAgree(n, neged, ctx, drops) && Shared(n, neged, ctx) == {}
    decreases n
  {
    match n
    case And(l, r) => NothingAgrees(l, false, ctx, drops); NothingAgrees(r, false, ctx, drops);
    case Or(l, r) => NothingAgrees(l, false, ctx, drops); NothingAgrees(r, false, ctx, drops);
    case Not(c) => NothingAgrees(c, true, ctx, drops);
    case Exists(c) => NothingAgrees(c, false, ctx, drops);
    case Rel(_, _, _) => assert n !in Drops(n, neged, ctx);
  }

  /** Each variable that is shared is pinned by a relation that is dropped. */
  lemma {:induction false} WellAgrees(n: Node<SnipVar>, ctx: Ctx, drops: set<Node<SnipVar>>)
    requires Drops(n, false, ctx) <= drops && DropsWell(n, drops)
    requires forall d <- drops :: ShareOf(d, false, ctx).Some?
    ensures DropsAgree(n, false, ctx, drops)
    ensures forall y <- Shared(n, false, ctx) :: DropsFor(n, y, drops)
  {
    match n
    case And(l, r) => WellAgrees(l, ctx, drops); WellAgrees(r, ctx, drops);
    case Or(l, r) => NothingAgrees(l, false, ctx, drops); NothingAgrees(r, false, ctx, drops);
    case Not(c) => NothingAgrees(c, true, ctx, drops);
    case Exists(c) => WellAgrees(c, ctx, drops);
    case Rel(_, _, _) =>
      if ShareOf(n, false, ctx).Some? {
        assert n in Drops(n, false, ctx);
      }
  }

  /** A shared variable ends up with the query's term, whatever is visited before or after its relation. */
  lemma {:induction false} SharedTerms(n: Node<SnipVar>, neged: bool, st: VState, fin: VState, ctx: Ctx, n0: Var,
                                       done: set<SnipVar>)
    requires Tracks(st, n0, done, ctx) && SharesOnce(n, neged, ctx, n0) && done !! Shared(n, neged, ctx)
    requires LeadsTo(Visit(n, neged, st, ctx).1, fin) && (forall w <- fin.subst :: n0 <= w)
    ensures forall d <- Drops(n, neged, ctx) :: ShareOf(d, false, ctx).Some? &&
              var sh := ShareOf(d, false, ctx).value;
              GoodShare(sh, ctx, n0) && sh.y in fin.rewritten && fin.rewritten[sh.y] == sh.Term().v
    decreases n, 1
  {
    match n
    case And(l, r) => BothShareTerms(n, l, r, st, fin, ctx, n0, done);
    case Or(l, r) => BothShareTerms(n, l, r, st, fin, ctx, n0, done);
    case Not(c) => SharedTerms(c, true, st, fin, ctx, n0, done);
    case Exists(c) => SharedTerms(c, false, st, fin, ctx, n0, done);
    case Rel(_, _, _) =>
  }

  lemma {:induction false} BothShareTerms(n: Node<SnipVar>, l: Node<SnipVar>, r: Node<SnipVar>, st: VState, fin: VState,
                                          ctx: Ctx, n0: Var, done: set<SnipVar>)
    requires n == And(l, r) || n == Or(l, r)
    requires Tracks(st, n0, done, ctx) && SharesOnce(n, false, ctx, n0) && done !! Shared(n, false, ctx)
    requires LeadsTo(Visit(r, false, Visit(l, false, st, ctx).1, ctx).1, fin) && (forall w <- fin.subst :: n0 <= w)
    ensures forall d <- Drops(n, false, ctx) :: ShareOf(d, false, ctx).Some? &&
              var sh := ShareOf(d, false, ctx).value;
              GoodShare(sh, ctx, n0) && sh.y in fin.rewritten && fin.rewritten[sh.y] == sh.Term().v
    decreases n, 0
  {
    var st1 := Visit(l, false, st, ctx).1;
    BothTrack(n, l, r, st, ctx, n0, done);
    LeadsOn(st1, Visit(r, false, st1, ctx).1, fin, n0, done + (Shared(l, false, ctx) + Shared(r, false, ctx)), ctx);
    SharedTerms(l, false, st, fin, ctx, n0, done);
    SharedTerms(r, false, st1, fin, ctx, n0, done + Shared(l, false, ctx));
  }

  // ----- a whole snippet

  function Start(n0: Var): VState {
    VState(map[], n0, map[], false)
  }

  function StateAfter(n: Node<SnipVar>, ctx: Ctx, n0: Var): VState {
    Visit(n, false, Start(n0), ctx).1
  }

  /** What is inserted for the snippet `n`, with new names from `n0` on. */
  function Inserted(n: Node<SnipVar>, ctx: Ctx, n0: Var): Option<Node<Var>> {
    SubstOption(Visit(n, false, Start(n0), ctx).0, StateAfter(n, ctx, n0).subst)
  }

  /** The snippet holds for the values of the terms that its variables are mapped to. */
  ghost predicate Holds(n: Node<SnipVar>, ctx: Ctx, f: Env<Var>, db: Db) {
    Sat(n, MappedValues(ctx, f), ctx.Fixed().Keys, db)
  }

  function MappedValues(ctx: Ctx, f: Env<Var>): Env<SnipVar> {
    map x | x in ctx.Fixed() :: ValueOf(ctx.Fixed()[x], f)
  }

  /** A snippet that may be inserted: each variable is shared at most once, by a relation under `And` and `Exists`
      only. */
  predicate Insertable(n: Node<SnipVar>, ctx: Ctx, n0: Var) {
    SharesOnce(n, false, ctx, n0) && DropsWell(n, Drops(n, false, ctx))
  }

  lemma VisitIsRewriting(n: Node<SnipVar>, ctx: Ctx, base: set<Var>, n0: Var)
    requires Mapped(ctx, base, n0) && Insertable(n, ctx, n0)
    ensures Inserted(n, ctx, n0) == Rewritten(n, SharingOf(n, StateAfter(n, ctx, n0), ctx))
    ensures Tracks(StateAfter(n, ctx, n0), n0, Shared(n, false, ctx), ctx)
    ensures Vars(n) <= ctx.Fixed().Keys + StateAfter(n, ctx, n0).rewritten.Keys
  {
    var fin := StateAfter(n, ctx, n0);
    var sh := SharingOf(n, fin, ctx);
    assert Tracks(Start(n0), n0, {}, ctx);
    VisitTracks(n, false, Start(n0), ctx, n0, {});
    assert {} + Shared(n, false, ctx) == Shared(n, false, ctx);
    DropsAreShares(n, false, ctx, n0);
    WellAgrees(n, ctx, sh.drops);
    LeadsToItself(fin, n0, Shared(n, false, ctx), ctx);
    VisitBuilds(n, false, Start(n0), fin, ctx, n0, {}, sh);
  }

  /** Where a relation is dropped although its variable is mapped already, the mapped term has the value of the
      query's term. */
  ghost predicate MatchesAt(n: Node<SnipVar>, ctx: Ctx, f: Env<Var>) {
    forall d <- Drops(n, false, ctx) :: MatchesFor(d, ctx, f)
  }

  ghost predicate MatchesFor(d: Node<SnipVar>, ctx: Ctx, f: Env<Var>) {
    match ShareOf(d, false, ctx)
    case None => true
    case Some(sh) => sh.orel.Rel? && sh.y in ctx.Fixed() ==> ValueOf(ctx.Fixed()[sh.y], f) == ValueOf(sh.Term(), f)
  }

  /** The same before there are values: the mapped term is the query's term. */
  predicate Matches(n: Node<SnipVar>, ctx: Ctx) {
    forall d <- Drops(n, false, ctx) ::
      match ShareOf(d, false, ctx)
      case None => true
      case Some(sh) => sh.orel.Rel? && sh.y in ctx.Fixed() ==> ctx.Fixed()[sh.y] == sh.Term()
  }

  lemma MatchesEverywhere(n: Node<SnipVar>, ctx: Ctx, f: Env<Var>)
    requires Matches(n, ctx)
    ensures MatchesAt(n, ctx, f)
  {
  }

  lemma DropIsStated(d: Node<SnipVar>, ctx: Ctx, where: Node<Var>, n0: Var, sh: Sharing, at: Site)
    requires Fits(ctx, where, n0, at) && MatchesFor(d, ctx, at.f0)
    requires ShareOf(d, false, ctx).Some? && GoodShare(ShareOf(d, false, ctx).value, ctx, n0)
    requires var share := ShareOf(d, false, ctx).value;
             && share.x in sh.fixed && share.x in sh.sig && sh.sig[share.x] == ctx.revvarmap[share.x]
                 && share.y in sh.sig
             && (share.y in sh.shared ==> sh.sig[share.y] == share.Term())
             && (share.y !in sh.shared ==>
                     share.y in sh.fixed && share.y in ctx.Fixed() && sh.sig[share.y] == ctx.Fixed()[share.y])
    ensures var share := ShareOf(d, false, ctx).value;
            && States(d, share.x, share.y, sh, at)
            && (share.y in sh.shared ==> sh.sig[share.y].Ref? && sh.sig[share.y].v in at.base)
  {
    var share := ShareOf(d, false, ctx).value;
    ShareIsStated(d, ctx, where, sh, at, n0);
    UsedRelation(d, ctx, where);
    ConjunctIsLocal(share.orel, where);
  }

  lemma DropsAreStated(n: Node<SnipVar>, ctx: Ctx, where: Node<Var>, n0: Var, sh: Sharing, at: Site)
    requires Fits(ctx, where, n0, at) && Insertable(n, ctx, n0) && MatchesAt(n, ctx, at.f0)
    requires sh == SharingOf(n, StateAfter(n, ctx, n0), ctx)
    requires Tracks(StateAfter(n, ctx, n0), n0, Shared(n, false, ctx), ctx)
    ensures forall d <- sh.drops :: exists x, y :: States(d, x, y, sh, at)
    ensures forall y <- sh.shared :: y in sh.sig && sh.sig[y].Ref? && sh.sig[y].v in at.base
  {
    var fin := StateAfter(n, ctx, n0);
    LeadsToItself(fin, n0, Shared(n, false, ctx), ctx);
    SharedTerms(n, false, Start(n0), fin, ctx, n0, {});
    DropsAreShares(n, false, ctx, n0);
    forall d | d in sh.drops
      ensures var share := ShareOf(d, false, ctx).value;
              && States(d, share.x, share.y, sh, at)
              && (share.y in sh.shared ==> sh.sig[share.y].Ref? && sh.sig[share.y].v in at.base)
    {
      hide Visit, Drops, Shared, SharesOnce, DropsWell, States, Fits, MatchesFor;
      DropIsStated(d, ctx, where, n0, sh, at);
    }
  }

  lemma VisitIsSound(n: Node<SnipVar>, ctx: Ctx, where: Node<Var>, n0: Var, at: Site)
    requires Fits(ctx, where, n0, at) && Insertable(n, ctx, n0) && MatchesAt(n, ctx, at.f0)
    ensures Sound(SharingOf(n, StateAfter(n, ctx, n0), ctx), at)
  {
    var sh := SharingOf(n, StateAfter(n, ctx, n0), ctx);
    VisitIsRewriting(n, ctx, at.base, n0);
    DropsAreStated(n, ctx, where, n0, sh, at);
  }

  /** Where the mapped terms match, what is inserted holds exactly when the snippet does. */
  lemma InsertedMeansMatching(n: Node<SnipVar>, ctx: Ctx, where: Node<Var>, n0: Var, at: Site)
    requires Fits(ctx, where, n0, at) && Insertable(n, ctx, n0) && MatchesAt(n, ctx, at.f0)
    ensures match Inserted(n, ctx, n0)
            case None => Holds(n, ctx, at.f0, at.db)
            case Some(m) => Sat(m, at.f0, at.base, at.db) <==> Holds(n, ctx, at.f0, at.db)
  {
    var fin := StateAfter(n, ctx, n0);
    var sh := SharingOf(n, fin, ctx);
    VisitIsRewriting(n, ctx, at.base, n0);
    VisitIsSound(n, ctx, where, n0, at);
    DropsAreShares(n, false, ctx, n0);
    WellAgrees(n, ctx, sh.drops);
    SameSat(n, MappedValues(ctx, at.f0), ctx.Fixed().Keys, at.f0, at.base, sh, at);
  }

  // ----- mapped variables that are shared all the same

  lemma {:induction false} NothingDrops(n: Node<SnipVar>, neged: bool, ctx: Ctx, drops: set<Node<SnipVar>>)
    requires Drops(n, neged, ctx) <= drops && DropsNothing(n, drops)
    ensures Drops(n, neged, ctx) == {}
    decreases n
  {
    match n
    case And(l, r) => NothingDrops(l, false, ctx, drops); NothingDrops(r, false, ctx, drops);
    case Or(l, r) => NothingDrops(l, false, ctx, drops); NothingDrops(r, false, ctx, drops);
    case Not(c) => NothingDrops(c, true, ctx, drops);
    case Exists(c) => NothingDrops(c, false, ctx, drops);
    case Rel(_, _, _) => assert n !in Drops(n, neged, ctx);
  }

  /** Where a snippet holds, so does each of the relations between mapped variables that are dropped. */
  lemma {:induction false} DroppedHolds(n: Node<SnipVar>, ctx: Ctx, drops: set<Node<SnipVar>>, d: Node<SnipVar>,
                                        e: Env<SnipVar>, eb: set<SnipVar>, e0: Env<SnipVar>, db: Db)
    requires Drops(n, false, ctx) <= drops && DropsWell(n, drops) && d in Drops(n, false, ctx)
    requires d.Rel? && d.s.Ref? && d.o.Ref? && d.s.v in e0 && d.o.v in e0
    requires eb <= e.Keys && e0.Keys <= eb && (forall x <- e0 :: e[x] == e0[x]) && Eval(n, e, eb, db)
    ensures db.rel(d.rtype, e0[d.s.v], e0[d.o.v])
  {
    match n
    case And(l, r) =>
      if d in Drops(l, false, ctx) {
        DroppedHolds(l, ctx, drops, d, e, eb, e0, db);
      } else {
        DroppedHolds(r, ctx, drops, d, e, eb, e0, db);
      }
    case Or(l, r) => NothingDrops(l, false, ctx, drops); NothingDrops(r, false, ctx, drops);
    case Not(c) => NothingDrops(c, true, ctx, drops);
    case Exists(c) =>
      var e' :| Extends(e', e, eb, Local(c), db) && Eval(c, e', eb + Local(c), db);
      DroppedHolds(c, ctx, drops, d, e', eb + Local(c), e0, db);
    case Rel(_, _, _) =>
  }

  lemma HoldingMatches(n: Node<SnipVar>, ctx: Ctx, where: Node<Var>, n0: Var, at: Site, d: Node<SnipVar>)
    requires Fits(ctx, where, n0, at) && Insertable(n, ctx, n0) && Holds(n, ctx, at.f0, at.db)
               && d in Drops(n, false, ctx)
    ensures MatchesFor(d, ctx, at.f0)
  {
    DropsAreShares(n, false, ctx, n0);
    var share := ShareOf(d, false, ctx).value;
    UsedRelation(d, ctx, where);
    if share.y in ctx.Fixed() {
      var e0, eb := MappedValues(ctx, at.f0), ctx.Fixed().Keys;
      var e' :| Extends(e', e0, eb, Local(n), at.db) && Eval(n, e', eb + Local(n), at.db);
      DroppedHolds(n, ctx, Drops(n, false, ctx), d, e', eb + Local(n), e0, at.db);
      OnlyTarget(d, ctx, where, n0, at);
    }
  }

  /** The main property of the visitor, for every solution of the query. The snippet holds exactly when what is inserted
      does and the mapped terms match; where nothing is inserted, exactly when the mapped terms match. */
  lemma InsertedMeansSnippet(n: Node<SnipVar>, ctx: Ctx, where: Node<Var>, n0: Var, at: Site)
    requires Fits(ctx, where, n0, at) && Insertable(n, ctx, n0)
    ensures Holds(n, ctx, at.f0, at.db) <==>
              && MatchesAt(n, ctx, at.f0)
              && match Inserted(n, ctx, n0)
                 case None => true
                 case Some(m) => Sat(m, at.f0, at.base, at.db)
  {
    if MatchesAt(n, ctx, at.f0) {
      InsertedMeansMatching(n, ctx, where, n0, at);
    } else {
      forall d | d in Drops(n, false, ctx) && Holds(n, ctx, at.f0, at.db)
        ensures MatchesFor(d, ctx, at.f0)
      {
        HoldingMatches(n, ctx, where, n0, at, d);
      }
    }
  }
}
