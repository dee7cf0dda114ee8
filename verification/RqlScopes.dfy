/** Checks of a variable that only an `Exists` of the query mentions: its snippets go into that `Exists`. */
module RqlScopes {
  import opened RqlTrees
  import opened RqlSharing
  import opened RqlVisitors
  import opened RqlIndexes
  import opened RqlVisits
  import opened RqlSnippets
  import opened RqlRewriters
  import opened RqlRewritings
  import opened RqlStages
  import opened RqlLimits
  import opened Wrappers

  // ----- a place in a query where an `Exists` is

  datatype Step = ToLeft | ToRight | Into

  type Spot = seq<Step>

  predicate HasSpot(n: Node<Var>, p: Spot)
    decreases |p|
  {
    if p == [] then n.Exists?
    else
      match n
      case And(l, r) => p[0] != Into && HasSpot(if p[0] == ToLeft then l else r, p[1..])
      case Or(l, r) => p[0] != Into && HasSpot(if p[0] == ToLeft then l else r, p[1..])
      case Not(c) => p[0] == Into && HasSpot(c, p[1..])
      case Exists(c) => p[0] == Into && HasSpot(c, p[1..])
      case Rel(_, _, _) => false
  }

  /** What the `Exists` is about. */
  function ScopeAt(n: Node<Var>, p: Spot): Node<Var>
    requires HasSpot(n, p)
    decreases |p|
  {
    if p == [] then n.c
    else
      match n
      case And(l, r) => ScopeAt(if p[0] == ToLeft then l else r, p[1..])
      case Or(l, r) => ScopeAt(if p[0] == ToLeft then l else r, p[1..])
      case Not(c) => ScopeAt(c, p[1..])
      case Exists(c) => ScopeAt(c, p[1..])
  }

  /** `insert_scope.add_restriction` changes what the `Exists` is about, and nothing else. */
  function PutAt(n: Node<Var>, p: Spot, m: Node<Var>): Node<Var>
    requires HasSpot(n, p)
    decreases |p|
  {
    if p == [] then Exists(m)
    else
      match n
      case And(l, r) => if p[0] == ToLeft then And(PutAt(l, p[1..], m), r) else And(l, PutAt(r, p[1..], m))
      case Or(l, r) => if p[0] == ToLeft then Or(PutAt(l, p[1..], m), r) else Or(l, PutAt(r, p[1..], m))
      case Not(c) => Not(PutAt(c, p[1..], m))
      case Exists(c) => Exists(PutAt(c, p[1..], m))
  }

  /** The query, when its `Exists` quantifies over values that are allowed only. */
  ghost predicate EvalAllowed(n: Node<Var>, p: Spot, allowed: Env<Var> -> bool, e: Env<Var>, bound: set<Var>, db: Db)
    requires HasSpot(n, p)
    decreases |p|
  {
    if p == [] then SatAllowed(n.c, allowed, e, bound, db)
    else
      match n
      case And(l, r) =>
        if p[0] == ToLeft then EvalAllowed(l, p[1..], allowed, e, bound, db) && Eval(r, e, bound, db)
        else Eval(l, e, bound, db) && EvalAllowed(r, p[1..], allowed, e, bound, db)
      case Or(l, r) =>
        if p[0] == ToLeft then EvalAllowed(l, p[1..], allowed, e, bound, db) || Eval(r, e, bound, db)
        else Eval(l, e, bound, db) || EvalAllowed(r, p[1..], allowed, e, bound, db)
      case Not(c) => !EvalAllowed(c, p[1..], allowed, e, bound, db)
      case Exists(c) =>
        exists e' :: Extends(e', e, bound, Local(c), db)
                     && EvalAllowed(c, p[1..], allowed, e', bound + Local(c), db)
  }

  ghost predicate SatAllowed(c: Node<Var>, allowed: Env<Var> -> bool, e: Env<Var>, bound: set<Var>, db: Db) {
    exists e' :: Extends(e', e, bound, Local(c), db) && Eval(c, e', bound + Local(c), db) && allowed(e')
  }

  // ----- scopes of the changed query

  /** `m` has the variables of the scope that it is put for, the user's, and new ones. */
  predicate Extended(n: Node<Var>, p: Spot, m: Node<Var>, u: Var)
    requires HasSpot(n, p)
  {
    Vars(ScopeAt(n, p)) <= Vars(m) && forall v <- Vars(m) :: v in Vars(ScopeAt(n, p)) || v == u || v !in Vars(n)
  }

  lemma {:induction false} SpotVars(n: Node<Var>, p: Spot, m: Node<Var>)
    requires HasSpot(n, p)
    ensures Vars(ScopeAt(n, p)) <= Vars(n)
    ensures Vars(ScopeAt(n, p)) <= Vars(m) ==> Vars(n) <= Vars(PutAt(n, p, m)) <= Vars(n) + Vars(m)
    decreases |p|
  {
    if p != [] {
      match n
      case And(l, r) => SpotVars(if p[0] == ToLeft then l else r, p[1..], m);
      case Or(l, r) => SpotVars(if p[0] == ToLeft then l else r, p[1..], m);
      case Not(c) => SpotVars(c, p[1..], m);
      case Exists(c) => SpotVars(c, p[1..], m);
    }
  }

  /** No scope of the query gets or loses a variable, but for the user's. */
  lemma {:induction false} SpotLocals(n: Node<Var>, p: Spot, m: Node<Var>, u: Var)
    requires HasSpot(n, p) && Extended(n, p, m, u)
    ensures Local(n) <= Local(PutAt(n, p, m)) <= Local(n) + {u}
    decreases |p|
  {
    if p != [] {
      match n
      case And(l, r) => BothSpotLocals(n, p, m, u);
      case Or(l, r) => BothSpotLocals(n, p, m, u);
      case Not(c) => SpotLocals(c, p[1..], m, u);
      case Exists(c) =>
    }
  }

  lemma {:induction false} BothSpotLocals(n: Node<Var>, p: Spot, m: Node<Var>, u: Var)
    requires (n.And? || n.Or?) && p != [] && HasSpot(n, p) && Extended(n, p, m, u)
    ensures Local(n) <= Local(PutAt(n, p, m)) <= Local(n) + {u}
    decreases |p|, 0
  {
    var side, other := if p[0] == ToLeft then n.l else n.r, if p[0] == ToLeft then n.r else n.l;
    SpotLocals(side, p[1..], m, u);
    SpotVars(side, p[1..], m);
    assert Vars(n) == Vars(side) + Vars(other);
    assert Vars(PutAt(side, p[1..], m)) * Vars(other) <= Vars(side) * Vars(other) + {u};
  }

  // ----- meaning of the changed query

  ghost predicate InDomain(f: Env<Var>, b: set<Var>, db: Db) {
    b <= f.Keys && forall w <- b :: f[w] in db.dom
  }

  /** What is put says, for all values of the outer variables, that some allowed values make the scope hold. */
  ghost predicate MeansAllowed(c: Node<Var>, m: Node<Var>, allowed: Env<Var> -> bool, u: Var, user: Val,
                               outer: set<Var>, db: Db) {
    forall f: Env<Var>, b: set<Var> | InDomain(f, b, db) && b <= outer && u in b && f[u] == user ::
      Sat(m, f, b, db) <==> SatAllowed(c, allowed, f, b, db)
  }

  lemma {:induction false} SpotMeans(n: Node<Var>, p: Spot, m: Node<Var>, allowed: Env<Var> -> bool, u: Var,
                                     e: Env<Var>, bound: set<Var>, outer: set<Var>, db: Db)
    requires HasSpot(n, p) && Extended(n, p, m, u) && u in bound && InDomain(e, bound, db) && bound <= outer
               && Vars(n) <= outer
    requires MeansAllowed(ScopeAt(n, p), m, allowed, u, e[u], outer, db)
    ensures Eval(PutAt(n, p, m), e, bound, db) <==> EvalAllowed(n, p, allowed, e, bound, db)
    decreases |p|
  {
    if p != [] {
      match n
      case And(l, r) => SpotMeans(if p[0] == ToLeft then l else r, p[1..], m, allowed, u, e, bound, outer, db);
      case Or(l, r) => SpotMeans(if p[0] == ToLeft then l else r, p[1..], m, allowed, u, e, bound, outer, db);
      case Not(c) => SpotMeans(c, p[1..], m, allowed, u, e, bound, outer, db);
      case Exists(c) => SpotInside(n, p, m, allowed, u, e, bound, outer, db);
    }
  }

  lemma {:induction false} SpotInside(n: Node<Var>, p: Spot, m: Node<Var>, allowed: Env<Var> -> bool, u: Var,
                                      e: Env<Var>, bound: set<Var>, outer: set<Var>, db: Db)
    requires n.Exists? && p != [] && HasSpot(n, p) && Extended(n, p, m, u)
    requires u in bound && InDomain(e, bound, db) && bound <= outer && Vars(n) <= outer
    requires MeansAllowed(ScopeAt(n, p), m, allowed, u, e[u], outer, db)
    ensures Eval(PutAt(n, p, m), e, bound, db) <==> EvalAllowed(n, p, allowed, e, bound, db)
    decreases |p|, 0
  {
    var c, c' := n.c, PutAt(n.c, p[1..], m);
    SpotLocals(c, p[1..], m, u);
    assert bound + Local(c') == bound + Local(c);
    forall e': Env<Var>
      ensures Extends(e', e, bound, Local(c'), db) <==> Extends(e', e, bound, Local(c), db)
      ensures Extends(e', e, bound, Local(c), db) ==>
                (Eval(c', e', bound + Local(c'), db) <==> EvalAllowed(c, p[1..], allowed, e', bound + Local(c), db))
    {
      if Extends(e', e, bound, Local(c), db) {
        SpotMeans(c, p[1..], m, allowed, u, e', bound + Local(c), outer, db);
      }
    }
  }

  // ----- polarity

  /** Whether an odd number of `Not` are above the spot. */
  predicate Negated(n: Node<Var>, p: Spot)
    requires HasSpot(n, p)
    decreases |p|
  {
    if p == [] then false
    else
      match n
      case And(l, r) => Negated(if p[0] == ToLeft then l else r, p[1..])
      case Or(l, r) => Negated(if p[0] == ToLeft then l else r, p[1..])
      case Not(c) => !Negated(c, p[1..])
      case Exists(c) => Negated(c, p[1..])
  }

  /** A check inside an `Exists` only restricts the query, unless it is negated: then it only lets more in. */
  lemma {:induction false} AllowedRestricts(n: Node<Var>, p: Spot, allowed: Env<Var> -> bool, e: Env<Var>,
                                            bound: set<Var>, db: Db)
    requires HasSpot(n, p)
    ensures if Negated(n, p) then Eval(n, e, bound, db) ==> EvalAllowed(n, p, allowed, e, bound, db)
            else EvalAllowed(n, p, allowed, e, bound, db) ==> Eval(n, e, bound, db)
    decreases |p|
  {
    if p != [] {
      match n
      case And(l, r) => AllowedRestricts(if p[0] == ToLeft then l else r, p[1..], allowed, e, bound, db);
      case Or(l, r) => AllowedRestricts(if p[0] == ToLeft then l else r, p[1..], allowed, e, bound, db);
      case Not(c) => AllowedRestricts(c, p[1..], allowed, e, bound, db);
      case Exists(c) => AllowedRestrictsInside(n, p, allowed, e, bound, db);
    }
  }

  lemma {:induction false} AllowedRestrictsInside(n: Node<Var>, p: Spot, allowed: Env<Var> -> bool, e: Env<Var>,
                                                  bound: set<Var>, db: Db)
    requires n.Exists? && p != [] && HasSpot(n, p)
    ensures if Negated(n, p) then Eval(n, e, bound, db) ==> EvalAllowed(n, p, allowed, e, bound, db)
            else EvalAllowed(n, p, allowed, e, bound, db) ==> Eval(n, e, bound, db)
    decreases |p|, 0
  {
    var c := n.c;
    if Negated(n, p) {
      if Eval(n, e, bound, db) {
        assert Sat(c, e, bound, db);
        var e' :| Extends(e', e, bound, Local(c), db) && Eval(c, e', bound + Local(c), db);
        AllowedRestricts(c, p[1..], allowed, e', bound + Local(c), db);
      }
    } else if EvalAllowed(n, p, allowed, e, bound, db) {
      var e' :| Extends(e', e, bound, Local(c), db) && EvalAllowed(c, p[1..], allowed, e', bound + Local(c), db);
      AllowedRestricts(c, p[1..], allowed, e', bound + Local(c), db);
    }
  }

  // ----- nothing is shared there

  lemma {:induction false} RelationsInScope(n: Node<Var>, neged: bool, o: OrigRel)
    requires o in RelationsIn(n, true, neged) && o.inScope
    ensures Vars(o.node) <= Local(n)
  {
    match n
    case And(l, r) =>
      if o in RelationsIn(l, true, false) { RelationsInScope(l, false, o); } else { RelationsInScope(r, false, o); }
    case Or(l, r) =>
      if o in RelationsIn(l, true, false) { RelationsInScope(l, false, o); } else { RelationsInScope(r, false, o); }
    case Not(c) => RelationsInScope(c, true, o);
    case Exists(c) => OutOfScope(c, false);
    case Rel(_, _, _) =>
  }

  /** The mapped terms are variables of the scope, and of no outer one. */
  predicate InnerTerms(c: Check, where: Node<Var>, scope: Node<Var>) {
    forall m <- c.mapped :: m.term.Ref? && m.term.v in Local(scope) && m.term.v !in Local(where)
  }

  lemma NoneAbout(m: Mapping, where: Node<Var>)
    requires m.term.Ref? && m.term.v !in Local(where)
    ensures forall target, o | o in RelationsAbout(where, target, m.term) :: !Usable(o)
  {
    forall target, o | o in RelationsAbout(where, target, m.term) && Usable(o)
      ensures false
    {
      RelationsInScope(where, false, o);
    }
  }

  lemma NothingInEntry(vi: VarInfo, m: Mapping, where: Node<Var>)
    requires ListsFor(vi, m, where)
    requires forall target, o | o in RelationsAbout(where, target, m.term) :: !Usable(o)
    ensures forall r <- vi.lhsRels :: forall o <- vi.lhsRels[r] :: !Usable(o)
    ensures forall r <- vi.rhsRels :: forall o <- vi.rhsRels[r] :: !Usable(o)
  {
    hide RelationsAbout, Usable;
  }

  lemma NothingFound(ctx: Ctx, c: Check, setup: Setup, where: Node<Var>, scope: Node<Var>)
    requires Indexes(ctx, c, setup, where) && InnerTerms(c, where, scope)
    ensures forall vi <- ctx.varinfos :: forall r <- vi.lhsRels :: forall o <- vi.lhsRels[r] :: !Usable(o)
    ensures forall vi <- ctx.varinfos :: forall r <- vi.rhsRels :: forall o <- vi.rhsRels[r] :: !Usable(o)
  {
    hide ListsFor, RelationsAbout, Usable, Local;
    forall i | 0 <= i < |ctx.varinfos|
      ensures forall r <- ctx.varinfos[i].lhsRels :: forall o <- ctx.varinfos[i].lhsRels[r] :: !Usable(o)
      ensures forall r <- ctx.varinfos[i].rhsRels :: forall o <- ctx.varinfos[i].rhsRels[r] :: !Usable(o)
    {
      assert c.mapped[i] in c.mapped;
      NoneAbout(c.mapped[i], where);
      NothingInEntry(ctx.varinfos[i], c.mapped[i], where);
    }
  }

  lemma {:induction false} NothingServes(r: string, target: Side, vis: seq<VarInfo>, s: Schema)
    requires forall vi <- vis :: forall r <- vi.lhsRels :: forall o <- vi.lhsRels[r] :: !Usable(o)
    requires forall vi <- vis :: forall r <- vi.rhsRels :: forall o <- vi.rhsRels[r] :: !Usable(o)
    ensures MayBeSharedWith(r, target, vis, s) == None
  {
    if vis != [] {
      assert vis[0] in vis;
      NothingServes(r, target, vis[1..], s);
    }
  }

  /** Nothing of the query is used in place of the snippet's relations. */
  lemma NothingShared(d: Node<SnipVar>, neged: bool, ctx: Ctx, c: Check, setup: Setup, where: Node<Var>,
                      scope: Node<Var>)
    requires Indexes(ctx, c, setup, where) && InnerTerms(c, where, scope)
    ensures ShareOf(d, neged, ctx) == None
  {
    NothingFound(ctx, c, setup, where, scope);
    if d.Rel? {
      NothingServes(d.rtype, AsObject, ctx.varinfos, ctx.schema);
      NothingServes(d.rtype, AsSubject, ctx.varinfos, ctx.schema);
    }
  }

  lemma {:induction false} NoShares(n: Node<SnipVar>, neged: bool, ctx: Ctx, n0: Var)
    requires forall d, neg :: ShareOf(d, neg, ctx) == None
    ensures Shared(n, neged, ctx) == {} && Drops(n, neged, ctx) == {} && SharesOnce(n, neged, ctx, n0)
    ensures DropsNothing(n, {}) && DropsWell(n, {})
    decreases n
  {
    match n
    case And(l, r) => NoShares(l, false, ctx, n0); NoShares(r, false, ctx, n0);
    case Or(l, r) => NoShares(l, false, ctx, n0); NoShares(r, false, ctx, n0);
    case Not(c) => NoShares(c, true, ctx, n0);
    case Exists(c) => NoShares(c, false, ctx, n0);
    case Rel(_, _, _) =>
  }

  /** The snippet is wrapped in an `Exists`, or has no variables of its own outside one. */
  predicate StaysInside(n: Node<SnipVar>, ctx: Ctx) {
    NeedsWrap(n, {}) || Local(n) <= ctx.Fixed().Keys
  }

  lemma SuitsInside(n: Node<SnipVar>, ctx: Ctx, n0: Var)
    requires (forall d, neg :: ShareOf(d, neg, ctx) == None) && StaysInside(n, ctx)
    ensures Suits(n, ctx, n0)
  {
    NoShares(n, false, ctx, n0);
    assert ctx.Fixed().Keys + {} == ctx.Fixed().Keys;
  }

  lemma EntryInside(vi: VarInfo, m: Mapping, where: Node<Var>, scope: Node<Var>)
    requires ListsFor(vi, m, where)
    requires forall target, o | o in RelationsAbout(where, target, m.term) :: !Usable(o)
    ensures IndexedFor(vi, scope)
  {
    EntryIndexed(vi, m, where);
    forall r, o | r in vi.lhsRels && o in vi.lhsRels[r]
      ensures o in RelationsAbout(where, AsObject, m.term)
    {
    }
    forall r, o | r in vi.rhsRels && o in vi.rhsRels[r]
      ensures o in RelationsAbout(where, AsSubject, m.term)
    {
    }
    hide RelationsAbout, ListsFor, Usable;
  }

  lemma IndexedInside(ctx: Ctx, c: Check, setup: Setup, where: Node<Var>, scope: Node<Var>)
    requires Indexes(ctx, c, setup, where) && InnerTerms(c, where, scope)
    ensures Indexed(ctx, scope)
  {
    hide ListsFor, IndexedFor, RelationsAbout;
    forall i | 0 <= i < |ctx.varinfos|
      ensures IndexedFor(ctx.varinfos[i], scope)
    {
      assert c.mapped[i] in c.mapped;
      NoneAbout(c.mapped[i], where);
      EntryInside(ctx.varinfos[i], c.mapped[i], where, scope);
    }
  }

  // ----- the check inside the scope

  /** A list of alternatives that is inserted in the `Exists` at `p`, with new names from `n0` on. */
  datatype Inside = Inside(where: Node<Var>, p: Spot, check: Check, setup: Setup, user: Val, ctx: Ctx, log: seq<Entry>,
                           n0: Var, hi: Var)
  {
    function Scope(): Node<Var>
      requires HasSpot(where, p)
    {
      ScopeAt(where, p)
    }

    function UserRel(): Node<Var> {
      Rel("eid", Ref(setup.u), Const(user))
    }

    /** The mapped variables are of that scope, and what `insert_varmap_snippets` promises holds of the log. */
    ghost predicate Valid() {
      && HasSpot(where, p) && Named(check) && InnerTerms(check, where, Scope())
      && Indexes(ctx, check, setup, where) && LogOf(log, check.exprs, ctx) && InOrder(log, ctx, n0, hi)
      && (forall n <- check.exprs :: StaysInside(n, ctx))
      && (forall v <- Vars(where) :: v < n0) && setup.u < n0
    }

    /** What is left of the scope. */
    function Checked(): Node<Var>
      requires HasSpot(where, p) && forall e <- log :: Told(e, ctx)
    {
      Shape(Scope(), UserRel(), Roots(log, ctx), Never)
    }

    /** The values that an accepted snippet, or none because none was accepted, lets through. */
    ghost function Allowed(db: Db): Env<Var> -> bool {
      f => Allows(log, ctx, f, db)
    }

    /** Where the scope holds, the values of the mapped variables have the types that were found. */
    ghost predicate TypesRight(db: Db)
      requires HasSpot(where, p)
    {
      && Conforms(db, ctx.schema)
      && forall f: Env<Var>, b: set<Var> | InDomain(f, b, db) && Eval(Scope(), f, b, db) ::
           forall vi <- ctx.varinfos :: db.typeOf(ValueOf(vi.term, f)) in vi.possibleTypes
    }
  }

  /** The snippets suit the scope, because nothing is shared there. */
  lemma InsideSuits(i: Inside, b: set<Var>)
    requires i.Valid() && i.setup.u in b && forall w <- b :: w < i.n0
    ensures Suited(i.log, i.ctx, i.n0) && Indexed(i.ctx, i.Scope()) && Mapped(i.ctx, b + Local(i.Scope()), i.n0)
  {
    IndexedInside(i.ctx, i.check, i.setup, i.where, i.Scope());
    StartsInOrder(i.log, i.ctx, i.n0, i.hi);
    forall d, neg
      ensures ShareOf(d, neg, i.ctx) == None
    {
      NothingShared(d, neg, i.ctx, i.check, i.setup, i.where, i.Scope());
    }
    forall n | n in i.check.exprs
      ensures Suits(n, i.ctx, i.n0)
    {
      SuitsInside(n, i.ctx, i.n0);
    }
    hide ShareOf, Suits, Indexed, IndexOf, Told;
    InsideMapped(i, b);
    forall k | 0 <= k < |i.log|
      ensures Suits(i.log[k].snip, i.ctx, i.n0)
    {
      assert i.check.exprs[k] in i.check.exprs;
    }
  }

  lemma InnerTermMapped(c: Check, where: Node<Var>, scope: Node<Var>, x: SnipVar)
    requires Named(c) && InnerTerms(c, where, scope) && x in Revvarmap(c.mapped)
    ensures x in ["S", "O", "X"] && Revvarmap(c.mapped)[x].Ref? && Revvarmap(c.mapped)[x].v in Local(scope)
  {
    hide Local;
    var k :| 0 <= k < |c.mapped| && c.mapped[k].snip == x && c.mapped[k].term == Revvarmap(c.mapped)[x];
    assert c.mapped[k] in c.mapped;
  }

  lemma MappedIn(ctx: Ctx, c: Check, setup: Setup, where: Node<Var>, scope: Node<Var>, base: set<Var>, n0: Var)
    requires Named(c) && InnerTerms(c, where, scope) && ctx.revvarmap == Revvarmap(c.mapped) && ctx.user == Ref(setup.u)
    requires Local(scope) + {setup.u} <= base && forall w <- base :: w < n0
    ensures Mapped(ctx, base, n0)
  {
    hide Revvarmap, Local, InnerTerms, Named;
    forall x | x in ctx.revvarmap
      ensures x != "U" && ctx.revvarmap[x].Ref? && ctx.revvarmap[x].v in base
    {
      InnerTermMapped(c, where, scope, x);
    }
  }

  lemma InsideMapped(i: Inside, b: set<Var>)
    requires i.Valid() && i.setup.u in b && forall w <- b :: w < i.n0
    ensures Mapped(i.ctx, b + Local(i.Scope()), i.n0)
  {
    SpotVars(i.where, i.p, i.Scope());
    hide IndexOf, InOrder, LogOf, StaysInside, Revvarmap, Local, Vars, HasSpot, ScopeAt, InnerTerms, Named, Mapped;
    MappedIn(i.ctx, i.check, i.setup, i.where, i.Scope(), b + Local(i.Scope()), i.n0);
  }

  /** The scope has no other variables than before, and uses new names beside. */
  lemma CheckedNames(i: Inside, b: set<Var>)
    requires i.Valid() && i.setup.u in b && forall w <- b :: w < i.n0
    ensures Local(i.Scope()) <= Local(i.Checked()) <= b + Local(i.Scope())
    ensures Vars(i.Scope()) <= Vars(i.Checked())
    ensures forall v <- Vars(i.Checked()) :: v in Vars(i.Scope()) || v in b || v >= i.n0
  {
    var base, roots := b + Local(i.Scope()), Roots(i.log, i.ctx);
    InsideSuits(i, b);
    SpotVars(i.where, i.p, i.Scope());
    hide Suited, Indexed, StaysInside, IndexOf, HasSpot, ScopeAt, InnerTerms, LogOf, Revvarmap;
    LogNames(i.log, i.ctx, i.Scope(), base, i.n0, i.hi);
    StartsInOrder(i.log, i.ctx, i.n0, i.hi);
    ShapeNames(i.Scope(), i.UserRel(), roots, Never, base, i.n0, i.hi);
    ShapeVars(i.Scope(), i.UserRel(), roots, base, i.n0, i.hi);
  }

  lemma ShapeVars(w: Node<Var>, user: Node<Var>, roots: seq<Node<Var>>, base: set<Var>, lo: Var, hi: Var)
    requires RootsApart(roots, base, lo, hi) && Local(w) <= base
    ensures Local(w) <= Local(Shape(w, user, roots, Never)) && Vars(w) <= Vars(Shape(w, user, roots, Never))
    ensures forall v <- Vars(Shape(w, user, roots, Never)) :: v in Vars(w) || v in base || lo <= v
  {
    if roots != [] {
      assert [roots[0]] + roots[1..] == roots;
      ChainNames(roots[0], roots[1..], base, lo, hi);
    }
  }

  lemma CheckedAllows(i: Inside, f: Env<Var>, b: set<Var>, db: Db)
    requires i.Valid() && i.TypesRight(db) && i.setup.u in b && (forall w <- b :: w < i.n0)
    requires var base := b + Local(i.Scope()); InDomain(f, base, db) && Eval(i.Scope(), f, base, db)
    ensures Eval(i.Checked(), f, b + Local(i.Scope()), db) <==> i.Allowed(db)(f)
  {
    var base := b + Local(i.Scope());
    InsideSuits(i, b);
    ShapeMeans(i.Scope(), i.UserRel(), Roots(i.log, i.ctx), Never, f, base, db);
    assert Fits(i.ctx, i.Scope(), i.n0, Site(base, f, db));
    LogMeans(i.log, i.ctx, i.Scope(), i.n0, Site(base, f, db));
  }

  lemma CheckedMeans(i: Inside, f: Env<Var>, b: set<Var>, db: Db)
    requires i.Valid() && i.TypesRight(db) && i.setup.u in b && InDomain(f, b, db) && (forall w <- b :: w < i.n0)
    ensures Sat(i.Checked(), f, b, db) <==> SatAllowed(i.Scope(), i.Allowed(db), f, b, db)
  {
    CheckedNames(i, b);
    var base := b + Local(i.Scope());
    assert b + Local(i.Checked()) == base;
    forall e': Env<Var>
      ensures Extends(e', f, b, Local(i.Checked()), db) <==> Extends(e', f, b, Local(i.Scope()), db)
      ensures Extends(e', f, b, Local(i.Scope()), db) ==>
                (Eval(i.Checked(), e', base, db) <==> Eval(i.Scope(), e', base, db) && i.Allowed(db)(e'))
    {
      if Extends(e', f, b, Local(i.Scope()), db) {
        ShapeMeans(i.Scope(), i.UserRel(), Roots(i.log, i.ctx), Never, e', base, db);
        if Eval(i.Scope(), e', base, db) {
          CheckedAllows(i, e', b, db);
        }
      }
    }
  }

  /** The rewritten query holds exactly where the query does when its `Exists` looks at the values only that the check
      lets through, however deep it is in the query. */
  lemma InsideMeans(i: Inside, e: Env<Var>, bound: set<Var>, db: Db)
    requires i.Valid() && i.TypesRight(db) && i.setup.u in bound && i.setup.u !in Vars(i.where)
    requires InDomain(e, bound, db) && forall w <- bound :: w < i.n0
    requires e[i.setup.u] == i.user
    ensures Eval(PutAt(i.where, i.p, i.Checked()), e, bound, db) <==>
              EvalAllowed(i.where, i.p, i.Allowed(db), e, bound, db)
  {
    var outer, u := bound + Vars(i.where), i.setup.u;
    forall f: Env<Var>, b: set<Var> | InDomain(f, b, db) && b <= outer && u in b && f[u] == i.user
      ensures Sat(i.Checked(), f, b, db) <==> SatAllowed(i.Scope(), i.Allowed(db), f, b, db)
    {
      CheckedMeans(i, f, b, db);
    }
    CheckedNames(i, {u});
    SpotMeans(i.where, i.p, i.Checked(), i.Allowed(db), u, e, bound, outer, db);
  }

  /** Such a check only restricts the query, unless the `Exists` is negated: then it only lets more in. */
  lemma InsideRestricts(i: Inside, e: Env<Var>, bound: set<Var>, db: Db)
    requires i.Valid() && i.TypesRight(db) && i.setup.u in bound && i.setup.u !in Vars(i.where)
    requires InDomain(e, bound, db) && forall w <- bound :: w < i.n0
    requires e[i.setup.u] == i.user
    ensures if Negated(i.where, i.p)
            then Eval(i.where, e, bound, db) ==> Eval(PutAt(i.where, i.p, i.Checked()), e, bound, db)
            else Eval(PutAt(i.where, i.p, i.Checked()), e, bound, db) ==> Eval(i.where, e, bound, db)
  {
    InsideMeans(i, e, bound, db);
    AllowedRestricts(i.where, i.p, i.Allowed(db), e, bound, db);
  }

  // ----- a negated scope

  const DOCUMENTED: Node<Var> := Rel("d", Ref(0), Ref(1))

  /** "NOT EXISTS(A d C)" */
  const UNDOCUMENTED: Node<Var> := Not(Exists(DOCUMENTED))

  const BELONGING: Node<SnipVar> := Rel("s", Ref("X"), Ref("U"))

  /** The values of the variable of the `Exists` must belong to the user. */
  const BELONGING_CHECK: Check := Check([Mapping("X", Ref(1), {"T"})], [BELONGING])

  function DocumentedCtx(): Ctx {
    CtxOf(BELONGING_CHECK, [VarInfo(Ref(1), {"T"}, map[], map["d" := [OrigRel(DOCUMENTED, false, false)]])],
          Setup(2, Single()))
  }

  function Documented(): Inside {
    Inside(UNDOCUMENTED, [Into], BELONGING_CHECK, Setup(2, Single()), 2, DocumentedCtx(),
        [Entry(BELONGING, 3, Accepted)], 3, StateAfter(BELONGING, DocumentedCtx(), 3).next)
  }

  const VISIBLE: set<Var> := {0, 2}

  const FIRST: Env<Var> := map[0 := 0, 2 := 2]

  /** The only value does not belong to the user. */
  function NotOwned(): Db {
    Db({0, 1, 2}, (r, a, b) => (r, a, b) == ("d", 0, 1), v => "T")
  }

  lemma DocumentedIndex()
    ensures Indexes(DocumentedCtx(), BELONGING_CHECK, Setup(2, Single()), UNDOCUMENTED)
    ensures DocumentedCtx().Fixed() == map["X" := Ref(1), "U" := Ref(2)]
  {
    assert RelationsOf(UNDOCUMENTED) == RelationsIn(Exists(DOCUMENTED), true, true)
             == {OrigRel(DOCUMENTED, false, false)};
    assert RelationsAbout(UNDOCUMENTED, AsObject, Ref(1)) == {};
    assert RelationsAbout(UNDOCUMENTED, AsSubject, Ref(1)) == {OrigRel(DOCUMENTED, false, false)};
    assert Revvarmap(BELONGING_CHECK.mapped[..0]) == map[];
  }

  lemma DocumentedIsTold()
    ensures LogOf(Documented().log, BELONGING_CHECK.exprs, DocumentedCtx())
    ensures InOrder(Documented().log, DocumentedCtx(), 3, Documented().hi)
  {
    DocumentedIndex();
    var ctx := DocumentedCtx();
    assert ShareOf(BELONGING, false, ctx) == None;
    assert Inserted(BELONGING, ctx, 3) == Some(Rel("s", Ref(1), Ref(2)));
    NamesGrow(BELONGING, false, Start(3), ctx);
    hide Inserted, Visit, ShareOf, DocumentedCtx;
    assert Documented().log[..0] == [];
  }

  lemma DocumentedIsValid()
    ensures Documented().Valid()
  {
    DocumentedIndex();
    DocumentedIsTold();
    hide IndexOf, InOrder, LogOf, StateAfter, DocumentedCtx;
    assert Local(UNDOCUMENTED) == {} && Local(DOCUMENTED) == {0, 1};
  }

  lemma NotOwnedConforms()
    ensures Documented().TypesRight(NotOwned())
  {
    SingleConforms(NotOwned());
    hide Conforms, StateAfter;
  }

  lemma NotOwnedIsDenied(f: Env<Var>)
    requires 1 in f && 2 in f
    ensures !Documented().Allowed(NotOwned())(f)
  {
    DocumentedIndex();
    var e, eb, db := MappedValues(DocumentedCtx(), f), DocumentedCtx().Fixed().Keys, NotOwned();
    hide DocumentedCtx, StateAfter;
    assert e.Keys == eb == {"X", "U"};
    forall e' | Extends(e', e, eb, Local(BELONGING), db)
      ensures !Eval(BELONGING, e', eb + Local(BELONGING), db)
    {
    }
    assert !Holds(BELONGING, DocumentedCtx(), f, db);
    hide Holds, NotOwned;
    assert Documented().log[0].verdict == Accepted;
  }

  lemma NoneIsAllowed()
    ensures !SatAllowed(DOCUMENTED, Documented().Allowed(NotOwned()), FIRST, VISIBLE, NotOwned())
  {
    forall e' | Extends(e', FIRST, VISIBLE, Local(DOCUMENTED), NotOwned())
      ensures !Documented().Allowed(NotOwned())(e')
    {
      NotOwnedIsDenied(e');
    }
  }

  lemma OneIsDocumented()
    ensures !Eval(UNDOCUMENTED, FIRST, VISIBLE, NotOwned())
  {
    var e1: Env<Var>, db := map[0 := 0, 1 := 1, 2 := 2], NotOwned();
    assert Extends(e1, FIRST, VISIBLE, Local(DOCUMENTED), db) && Eval(DOCUMENTED, e1, VISIBLE + Local(DOCUMENTED), db);
    assert Sat(DOCUMENTED, FIRST, VISIBLE, db);
    assert Eval(Exists(DOCUMENTED), FIRST, VISIBLE, db);
  }

  lemma DocumentedScope()
    ensures var i := Documented();
            && HasSpot(i.where, i.p) && i.Scope() == DOCUMENTED && Negated(i.where, i.p)
            && forall allowed, db ::
                 EvalAllowed(i.where, i.p, allowed, FIRST, VISIBLE, db) <==>
                 !SatAllowed(DOCUMENTED, allowed, FIRST, VISIBLE, db)
  {
    hide StateAfter, DocumentedCtx, SatAllowed;
    assert [Into][1..] == [];
  }

  lemma FirstIsInDomain()
    ensures InDomain(FIRST, VISIBLE, NotOwned()) && Documented().setup.u !in Vars(UNDOCUMENTED)
  {
  }

  /** A negated `Exists`: a solution that the query does not have comes up because of a check. */
  lemma CheckLetsMoreIn()
    ensures var i, db := Documented(), NotOwned();
            && i.Valid() && i.TypesRight(db) && Negated(i.where, i.p)
            && !Eval(i.where, FIRST, VISIBLE, db) && Eval(PutAt(i.where, i.p, i.Checked()), FIRST, VISIBLE, db)
  {
    hide Inside.Valid, Inside.TypesRight, Inside.Allowed, Inside.Checked, Eval, SatAllowed, EvalAllowed, StateAfter,
         DocumentedCtx, NotOwned, Negated, HasSpot, PutAt;
    DocumentedIsValid();
    NotOwnedConforms();
    NoneIsAllowed();
    OneIsDocumented();
    DocumentedScope();
    FirstIsInDomain();
    InsideMeans(Documented(), FIRST, VISIBLE, NotOwned());
  }
}
