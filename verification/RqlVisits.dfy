/** The visitor computes a sharing of the kind that keeps the meaning of the snippet. */
module RqlVisits {
  import opened RqlTrees
  import opened RqlSharing
  import opened RqlVisitors
  import opened Wrappers

  // ----- what a visit shares, read off the snippet

  /** The snippet's variables that get a term of the query, at one relation or another. */
  function Shared(n: Node<SnipVar>, neged: bool, ctx: Ctx): set<SnipVar>
    decreases n
  {
    match n
    case And(l, r) => Shared(l, false, ctx) + Shared(r, false, ctx)
    case Or(l, r) => Shared(l, false, ctx) + Shared(r, false, ctx)
    case Not(c) => Shared(c, true, ctx)
    case Exists(c) => Shared(c, false, ctx)
    case Rel(_, _, _) => if ShareOf(n, neged, ctx).Some? then {ShareOf(n, neged, ctx).value.y} else {}
  }

  /** The relations that are left out. */
  function Drops(n: Node<SnipVar>, neged: bool, ctx: Ctx): set<Node<SnipVar>>
    decreases n
  {
    match n
    case And(l, r) => Drops(l, false, ctx) + Drops(r, false, ctx)
    case Or(l, r) => Drops(l, false, ctx) + Drops(r, false, ctx)
    case Not(c) => Drops(c, true, ctx)
    case Exists(c) => Drops(c, false, ctx)
    case Rel(_, _, _) => if ShareOf(n, neged, ctx).Some? then {n} else {}
  }

  /** The query's term is a variable of the query, and the relation used is one of the term that the snippet's
      relation is about. */
  predicate GoodShare(sh: Share, ctx: Ctx, n0: Var) {
    && sh.orel.Rel? && sh.Term().Ref? && sh.Term().v < n0
    && sh.x in ctx.revvarmap && sh.about == ctx.revvarmap[sh.x]
  }

  /** Every variable is shared at most once, and with a good share. */
  predicate SharesOnce(n: Node<SnipVar>, neged: bool, ctx: Ctx, n0: Var)
    decreases n
  {
    match n
    case And(l, r) => SharesOnce(l, false, ctx, n0) && SharesOnce(r, false, ctx, n0)
        && Shared(l, false, ctx) !! Shared(r, false, ctx)
    case Or(l, r) => SharesOnce(l, false, ctx, n0) && SharesOnce(r, false, ctx, n0)
        && Shared(l, false, ctx) !! Shared(r, false, ctx)
    case Not(c) => SharesOnce(c, true, ctx, n0)
    case Exists(c) => SharesOnce(c, false, ctx, n0)
    case Rel(_, _, _) => ShareOf(n, neged, ctx).Some? ==> GoodShare(ShareOf(n, neged, ctx).value, ctx, n0)
  }

  /** Some relation that would be used in place of the snippet's has a constant where the term is taken. */
  predicate SharesConstant(n: Node<SnipVar>, neged: bool, ctx: Ctx)
    decreases n
  {
    match n
    case And(l, r) => SharesConstant(l, false, ctx) || SharesConstant(r, false, ctx)
    case Or(l, r) => SharesConstant(l, false, ctx) || SharesConstant(r, false, ctx)
    case Not(c) => SharesConstant(c, true, ctx)
    case Exists(c) => SharesConstant(c, false, ctx)
    case Rel(_, _, _) =>
      var sh := ShareOf(n, neged, ctx);
      sh.Some? && sh.value.orel.Rel? && sh.value.Term().Const?
  }

  lemma ShareIsRelation(n: Node<SnipVar>, neged: bool, ctx: Ctx)
    ensures ShareOf(n, neged, ctx).Some? ==> ShareOf(n, neged, ctx).value.orel.Rel?
  {
  }

  /** The visit fails exactly when a term to share is a constant. */
  lemma {:induction false} FailsOnConstants(n: Node<SnipVar>, neged: bool, st: VState, ctx: Ctx)
    ensures Visit(n, neged, st, ctx).1.failed <==> st.failed || SharesConstant(n, neged, ctx)
    decreases n
  {
    match n
    case And(l, r) =>
      FailsOnConstants(l, false, st, ctx);
      FailsOnConstants(r, false, Visit(l, false, st, ctx).1, ctx);
    case Or(l, r) =>
      FailsOnConstants(l, false, st, ctx);
      FailsOnConstants(r, false, Visit(l, false, st, ctx).1, ctx);
    case Not(c) => FailsOnConstants(c, true, st, ctx);
    case Exists(c) => FailsOnConstants(c, false, st, ctx);
    case Rel(_, _, _) => ShareIsRelation(n, neged, ctx);
  }

  /** The visit comes to "U", and not only after a constant that makes it fail. */
  predicate MeetsUser(n: Node<SnipVar>, neged: bool, ctx: Ctx)
    decreases n
  {
    match n
    case And(l, r) => MeetsUser(l, false, ctx) || (!SharesConstant(l, false, ctx) && MeetsUser(r, false, ctx))
    case Or(l, r) => MeetsUser(l, false, ctx) || (!SharesConstant(l, false, ctx) && MeetsUser(r, false, ctx))
    case Not(c) => MeetsUser(c, true, ctx)
    case Exists(c) => MeetsUser(c, false, ctx)
    case Rel(_, _, _) => ShareOf(n, neged, ctx).None? && "U" in Vars(n)
  }

  /** A visit that does not fail comes to "U" wherever the snippet mentions it. */
  lemma {:induction false} UserIsMet(n: Node<SnipVar>, neged: bool, ctx: Ctx)
    requires "U" !in ctx.revvarmap && !SharesConstant(n, neged, ctx)
    ensures MeetsUser(n, neged, ctx) <==> "U" in Vars(n)
    decreases n
  {
    match n
    case And(l, r) => UserIsMet(l, false, ctx); UserIsMet(r, false, ctx);
    case Or(l, r) => UserIsMet(l, false, ctx); UserIsMet(r, false, ctx);
    case Not(c) => UserIsMet(c, true, ctx);
    case Exists(c) => UserIsMet(c, false, ctx);
    case Rel(_, _, _) =>
  }

  lemma {:induction false} NamesGrow(n: Node<SnipVar>, neged: bool, st: VState, ctx: Ctx)
    ensures Visit(n, neged, st, ctx).1.next >= st.next
    decreases n
  {
    match n
    case And(l, r) =>
      NamesGrow(l, false, st, ctx);
      NamesGrow(r, false, Visit(l, false, st, ctx).1, ctx);
    case Or(l, r) =>
      NamesGrow(l, false, st, ctx);
      NamesGrow(r, false, Visit(l, false, st, ctx).1, ctx);
    case Not(c) => NamesGrow(c, true, st, ctx);
    case Exists(c) => NamesGrow(c, false, st, ctx);
    case Rel(_, _, _) =>
  }

  // ----- the state of the visitor over a visit

  /** Names below `n0` are the query's. Variables in `done` are shared, the others have new, different names;
      only names that were given up are replaced. */
  ghost predicate Tracks(st: VState, n0: Var, done: set<SnipVar>, ctx: Ctx) {
    && n0 <= st.next
    && done <= st.rewritten.Keys && st.rewritten.Keys * ctx.Fixed().Keys <= done
    && (forall v <- done :: st.rewritten[v] < n0)
    && (forall v <- st.rewritten.Keys - done :: n0 <= st.rewritten[v] < st.next && st.rewritten[v] !in st.subst)
    && (forall v, w | v in st.rewritten.Keys - done && w in st.rewritten.Keys - done ::
          st.rewritten[v] == st.rewritten[w] ==> v == w)
    && (forall w <- st.subst :: n0 <= w < st.next && st.subst[w] < n0)
  }

  function Resolve(w: Var, sub: map<Var, Var>): Var {
    if w in sub then sub[w] else w
  }

  /** Later replacements turn the names of `st` into those of `later`. */
  ghost predicate LeadsTo(st: VState, later: VState) {
    && st.rewritten.Keys <= later.rewritten.Keys
    && (forall w <- st.subst :: w in later.subst && later.subst[w] == st.subst[w])
    && (forall v <- st.rewritten :: Resolve(st.rewritten[v], later.subst) == later.rewritten[v])
  }

  lemma LeadsOn(a: VState, b: VState, c: VState, n0: Var, done: set<SnipVar>, ctx: Ctx)
    requires Tracks(b, n0, done, ctx) && (forall w <- c.subst :: n0 <= w)
    requires LeadsTo(a, b) && LeadsTo(b, c)
    ensures LeadsTo(a, c)
  {
  }

  lemma LeadsToItself(st: VState, n0: Var, done: set<SnipVar>, ctx: Ctx)
    requires Tracks(st, n0, done, ctx)
    ensures LeadsTo(st, st)
  {
  }

  lemma TermKeeps(t: Term<SnipVar>, st: VState, ctx: Ctx, n0: Var, done: set<SnipVar>)
    requires Tracks(st, n0, done, ctx)
    ensures Tracks(VisitTerm(t, st, ctx).1, n0, done, ctx)
  {
  }

  lemma TermTracks(t: Term<SnipVar>, st: VState, ctx: Ctx, n0: Var, done: set<SnipVar>)
    requires Tracks(st, n0, done, ctx)
    ensures Tracks(VisitTerm(t, st, ctx).1, n0, done, ctx) && LeadsTo(st, VisitTerm(t, st, ctx).1)
    ensures TermVars(t) <= ctx.Fixed().Keys + VisitTerm(t, st, ctx).1.rewritten.Keys
  {
    TermKeeps(t, st, ctx, n0, done);
    LeadsToItself(st, n0, done, ctx);
    hide Tracks;
  }

  lemma LeadsThroughTerm(t: Term<SnipVar>, a: VState, st: VState, ctx: Ctx, n0: Var, done: set<SnipVar>)
    requires Tracks(st, n0, done, ctx) && LeadsTo(a, st)
    ensures LeadsTo(a, VisitTerm(t, st, ctx).1)
  {
    TermTracks(t, st, ctx, n0, done);
    LeadsOn(a, st, VisitTerm(t, st, ctx).1, n0, done, ctx);
  }

  lemma ShareTracks(sh: Share, st: VState, ctx: Ctx, n0: Var, done: set<SnipVar>)
    requires Tracks(st, n0, done, ctx) && GoodShare(sh, ctx, n0) && sh.y !in done
    ensures Tracks(UseOrigTerm(sh.y, sh.Term(), st), n0, done + {sh.y}, ctx)
  {
  }

  lemma ShareLeads(sh: Share, st: VState, ctx: Ctx, n0: Var, done: set<SnipVar>)
    requires Tracks(st, n0, done, ctx) && GoodShare(sh, ctx, n0) && sh.y !in done
    ensures LeadsTo(st, UseOrigTerm(sh.y, sh.Term(), st))
  {
  }

  /** A shared relation is between a mapped variable and the one that is shared. */
  lemma SharedVarsAreNamed(n: Node<SnipVar>, neged: bool, st: VState, ctx: Ctx)
    requires ShareOf(n, neged, ctx).Some? && ShareOf(n, neged, ctx).value.orel.Rel?
               && ShareOf(n, neged, ctx).value.Term().Ref?
    ensures Vars(n) <= ctx.Fixed().Keys + Visit(n, neged, st, ctx).1.rewritten.Keys
  {
  }

  lemma NamesStay(t: Term<SnipVar>, st: VState, ctx: Ctx)
    ensures st.rewritten.Keys <= VisitTerm(t, st, ctx).1.rewritten.Keys
  {
  }

  lemma RelationTracks(n: Node<SnipVar>, neged: bool, st: VState, ctx: Ctx, n0: Var, done: set<SnipVar>)
    requires n.Rel? && Tracks(st, n0, done, ctx) && SharesOnce(n, neged, ctx, n0) && done !! Shared(n, neged, ctx)
    ensures Tracks(Visit(n, neged, st, ctx).1, n0, done + Shared(n, neged, ctx), ctx)
    ensures LeadsTo(st, Visit(n, neged, st, ctx).1)
    ensures Vars(n) <= ctx.Fixed().Keys + Visit(n, neged, st, ctx).1.rewritten.Keys
  {
    hide Tracks, LeadsTo;
    if ShareOf(n, neged, ctx).Some? {
      ShareTracks(ShareOf(n, neged, ctx).value, st, ctx, n0, done);
      ShareLeads(ShareOf(n, neged, ctx).value, st, ctx, n0, done);
      SharedVarsAreNamed(n, neged, st, ctx);
    } else {
      var st1 := VisitTerm(n.s, st, ctx).1;
      TermTracks(n.s, st, ctx, n0, done);
      TermTracks(n.o, st1, ctx, n0, done);
      NamesStay(n.o, st1, ctx);
      assert done + Shared(n, neged, ctx) == done;
      LeadsThroughTerm(n.o, st, st1, ctx, n0, done);
    }
  }

  /** A visit keeps track, whatever it builds. */
  lemma {:induction false} VisitTracks(n: Node<SnipVar>, neged: bool, st: VState, ctx: Ctx, n0: Var, done: set<SnipVar>)
    requires Tracks(st, n0, done, ctx) && SharesOnce(n, neged, ctx, n0) && done !! Shared(n, neged, ctx)
    ensures Tracks(Visit(n, neged, st, ctx).1, n0, done + Shared(n, neged, ctx), ctx)
    ensures LeadsTo(st, Visit(n, neged, st, ctx).1)
    ensures Vars(n) <= ctx.Fixed().Keys + Visit(n, neged, st, ctx).1.rewritten.Keys
    decreases n, 1
  {
    match n
    case And(l, r) => BothTrack(n, l, r, st, ctx, n0, done);
    case Or(l, r) => BothTrack(n, l, r, st, ctx, n0, done);
    case Not(c) => VisitTracks(c, true, st, ctx, n0, done);
    case Exists(c) => VisitTracks(c, false, st, ctx, n0, done);
    case Rel(_, _, _) => RelationTracks(n, neged, st, ctx, n0, done);
  }

  lemma {:induction false} BothTrack(n: Node<SnipVar>, l: Node<SnipVar>, r: Node<SnipVar>, st: VState, ctx: Ctx,
                                     n0: Var, done: set<SnipVar>)
    requires n == And(l, r) || n == Or(l, r)
    requires Tracks(st, n0, done, ctx) && SharesOnce(n, false, ctx, n0) && done !! Shared(n, false, ctx)
    ensures var st1 := Visit(l, false, st, ctx).1; var st2 := Visit(r, false, st1, ctx).1;
            && Tracks(st1, n0, done + Shared(l, false, ctx), ctx)
            && Tracks(st2, n0, done + (Shared(l, false, ctx) + Shared(r, false, ctx)), ctx)
            && LeadsTo(st, st1) && LeadsTo(st1, st2) && LeadsTo(st, st2)
            && Vars(l) + Vars(r) <= ctx.Fixed().Keys + st2.rewritten.Keys
    decreases n, 0
  {
    var st1 := Visit(l, false, st, ctx).1;
    var st2 := Visit(r, false, st1, ctx).1;
    var done1 := done + Shared(l, false, ctx);
    VisitTracks(l, false, st, ctx, n0, done);
    VisitTracks(r, false, st1, ctx, n0, done1);
    assert done1 + Shared(r, false, ctx) == done + (Shared(l, false, ctx) + Shared(r, false, ctx));
    LeadsOn(st, st1, st2, n0, done1, ctx);
  }

  // ----- what is built

  /** The sharing that a visit of `n` ending in `fin` amounts to. */
  function SharingOf(n: Node<SnipVar>, fin: VState, ctx: Ctx): Sharing {
    Sharing(
      map v | v in ctx.Fixed().Keys + fin.rewritten.Keys ::
          if v in ctx.Fixed() then ctx.Fixed()[v] else Ref(fin.rewritten[v]), ctx.Fixed().Keys,
          Shared(n, false, ctx) - ctx.Fixed().Keys, Drops(n, false, ctx))
  }

  ghost predicate FixedBelow(ctx: Ctx, n0: Var) {
    forall x <- ctx.Fixed() :: ctx.Fixed()[x].Ref? ==> ctx.Fixed()[x].v < n0
  }

  function SubstOption(n: Option<Node<Var>>, sub: map<Var, Var>): Option<Node<Var>> {
    match n
    case None => None
    case Some(m) => Some(SubstNode(m, sub))
  }

  /** The visitor's choices agree with the relations that a whole snippet drops. */
  predicate DropsAgree(n: Node<SnipVar>, neged: bool, ctx: Ctx, drops: set<Node<SnipVar>>)
    decreases n
  {
    match n
    case And(l, r) => DropsAgree(l, false, ctx, drops) && DropsAgree(r, false, ctx, drops)
    case Or(l, r) => DropsAgree(l, false, ctx, drops) && DropsAgree(r, false, ctx, drops)
    case Not(c) => DropsAgree(c, true, ctx, drops)
    case Exists(c) => DropsAgree(c, false, ctx, drops)
    case Rel(_, _, _) => n in drops <==> ShareOf(n, neged, ctx).Some?
  }

  /** `sh` renames as the state `fin`, the last one of the whole snippet, says. */
  ghost predicate Final(fin: VState, ctx: Ctx, n0: Var, sh: Sharing) {
    && FixedBelow(ctx, n0) && (forall w <- fin.subst :: n0 <= w)
    && sh.sig.Keys == ctx.Fixed().Keys + fin.rewritten.Keys
    && forall v <- sh.sig :: sh.sig[v] == if v in ctx.Fixed() then ctx.Fixed()[v] else Ref(fin.rewritten[v])
  }

  lemma TermIsImage(t: Term<SnipVar>, st: VState, fin: VState, ctx: Ctx, n0: Var, done: set<SnipVar>, sh: Sharing)
    requires Tracks(st, n0, done, ctx) && LeadsTo(VisitTerm(t, st, ctx).1, fin) && Final(fin, ctx, n0, sh)
    ensures Subst(VisitTerm(t, st, ctx).0, fin.subst) == Image(t, sh.sig)
  {
  }

  lemma RelationBuilds(n: Node<SnipVar>, neged: bool, st: VState, fin: VState, ctx: Ctx, n0: Var, done: set<SnipVar>,
                       sh: Sharing)
    requires n.Rel? && ShareOf(n, neged, ctx).None? && n !in sh.drops
    requires Tracks(st, n0, done, ctx) && LeadsTo(Visit(n, neged, st, ctx).1, fin) && Final(fin, ctx, n0, sh)
    ensures SubstOption(Visit(n, neged, st, ctx).0, fin.subst) == Rewritten(n, sh)
  {
    var st1 := VisitTerm(n.s, st, ctx).1;
    TermTracks(n.s, st, ctx, n0, done);
    TermTracks(n.o, st1, ctx, n0, done);
    LeadsOn(st1, VisitTerm(n.o, st1, ctx).1, fin, n0, done, ctx);
    TermIsImage(n.s, st, fin, ctx, n0, done, sh);
    TermIsImage(n.o, st1, fin, ctx, n0, done, sh);
  }

  /** Seen after all replacements, what the visitor builds is the rewritten snippet. */
  lemma {:induction false} VisitBuilds(n: Node<SnipVar>, neged: bool, st: VState, fin: VState, ctx: Ctx, n0: Var,
                                       done: set<SnipVar>, sh: Sharing)
    requires Tracks(st, n0, done, ctx) && SharesOnce(n, neged, ctx, n0) && done !! Shared(n, neged, ctx)
    requires LeadsTo(Visit(n, neged, st, ctx).1, fin) && Final(fin, ctx, n0, sh)
    requires DropsAgree(n, neged, ctx, sh.drops)
    ensures SubstOption(Visit(n, neged, st, ctx).0, fin.subst) == Rewritten(n, sh)
    decreases n, 1
  {
    match n
    case And(l, r) => BothBuild(n, l, r, st, fin, ctx, n0, done, sh);
    case Or(l, r) => BothBuild(n, l, r, st, fin, ctx, n0, done, sh);
    case Not(c) => VisitBuilds(c, true, st, fin, ctx, n0, done, sh);
    case Exists(c) => VisitBuilds(c, false, st, fin, ctx, n0, done, sh);
    case Rel(_, _, _) =>
      if ShareOf(n, neged, ctx).None? {
        RelationBuilds(n, neged, st, fin, ctx, n0, done, sh);
      }
  }

  lemma {:induction false} BothBuild(n: Node<SnipVar>, l: Node<SnipVar>, r: Node<SnipVar>, st: VState, fin: VState,
                                     ctx: Ctx, n0: Var, done: set<SnipVar>, sh: Sharing)
    requires n == And(l, r) || n == Or(l, r)
    requires Tracks(st, n0, done, ctx) && SharesOnce(n, false, ctx, n0) && done !! Shared(n, false, ctx)
    requires LeadsTo(Visit(r, false, Visit(l, false, st, ctx).1, ctx).1, fin) && Final(fin, ctx, n0, sh)
    requires DropsAgree(l, false, ctx, sh.drops) && DropsAgree(r, false, ctx, sh.drops)
    ensures SubstOption(Visit(l, false, st, ctx).0, fin.subst) == Rewritten(l, sh)
    ensures SubstOption(Visit(r, false, Visit(l, false, st, ctx).1, ctx).0, fin.subst) == Rewritten(r, sh)
    decreases n, 0
  {
    var st1 := Visit(l, false, st, ctx).1;
    BothTrack(n, l, r, st, ctx, n0, done);
    LeadsOn(st1, Visit(r, false, st1, ctx).1, fin, n0, done + (Shared(l, false, ctx) + Shared(r, false, ctx)), ctx);
    VisitBuilds(l, false, st, fin, ctx, n0, done, sh);
    VisitBuilds(r, false, st1, fin, ctx, n0, done + Shared(l, false, ctx), sh);
  }
}
