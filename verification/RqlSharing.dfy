/** Why a snippet may lose relations that the query already states: dropping such a relation and using
    the query's own variable for its other end keeps the meaning of the snippet. */
module RqlSharing {
  import opened RqlTrees
  import opened Wrappers

  type SnipVar = string
  type Var = nat

  /** What becomes of the variables and relations of a snippet: `fixed` variables stand for terms of the query,
      `shared` ones for variables that the query relates in the same way, the others get new names;
      the relations in `drops` go. */
  datatype Sharing = Sharing(
    sig: map<SnipVar, Term<Var>>,
    fixed: set<SnipVar>,
    shared: set<SnipVar>,
    drops: set<Node<SnipVar>>)

  function Image(t: Term<SnipVar>, sig: map<SnipVar, Term<Var>>): Term<Var> {
    match t
    case Ref(v) => if v in sig then sig[v] else Const(0)
    case Const(c) => Const(c)
  }

  /** The snippet as it is inserted; None when nothing is left of it. */
  function Rewritten(n: Node<SnipVar>, sh: Sharing): Option<Node<Var>> {
    match n
    case And(l, r) => Both(Rewritten(l, sh), Rewritten(r, sh), (a, b) => And(a, b))
    case Or(l, r) => Both(Rewritten(l, sh), Rewritten(r, sh), (a, b) => Or(a, b))
    case Not(c) => (match Rewritten(c, sh) case None => None case Some(c') => Some(Not(c')))
    case Exists(c) => (match Rewritten(c, sh) case None => None case Some(c') => Some(Exists(c')))
    case Rel(rtype, s, o) => if n in sh.drops then None else Some(Rel(rtype, Image(s, sh.sig), Image(o, sh.sig)))
  }

  /** A binary node of what is left of its children. */
  function Both<V>(l: Option<Node<V>>, r: Option<Node<V>>, make: (Node<V>, Node<V>) -> Node<V>): Option<Node<V>> {
    if l == None then r else if r == None then l else Some(make(l.value, r.value))
  }

  /** Where the rewritten snippet is inserted: `base` are the variables of the query that are in scope,
      `f0` values for them that satisfy the query. */
  datatype Site = Site(base: set<Var>, f0: Env<Var>, db: Db)

  predicate Fresh(v: SnipVar, sh: Sharing) {
    v in sh.sig && v !in sh.fixed && v !in sh.shared
  }

  /** The relation is one that the query states too, and that gives `x` no other `y` than the query's. The variable `y`
      is shared, or stands for a term of the query already. */
  ghost predicate States(d: Node<SnipVar>, x: SnipVar, y: SnipVar, sh: Sharing, at: Site) {
    && d.Rel? && x in sh.fixed && (y in sh.shared || y in sh.fixed) && x in sh.sig && y in sh.sig
    && var a, b := ValueOf(sh.sig[x], at.f0), ValueOf(sh.sig[y], at.f0);
       || (&& d.s == Ref(x) && d.o == Ref(y) && at.db.rel(d.rtype, a, b)
           && forall u :: at.db.rel(d.rtype, a, u) ==> u == b)
       || (&& d.s == Ref(y) && d.o == Ref(x) && at.db.rel(d.rtype, b, a)
           && forall u :: at.db.rel(d.rtype, u, a) ==> u == b)
  }

  /** New names are new and different; shared variables stand for variables in scope;
      every relation that goes is stated by the query. */
  ghost predicate Sound(sh: Sharing, at: Site) {
    && at.base <= at.f0.Keys
    && (forall v, w | Fresh(v, sh) && Fresh(w, sh) ::
          sh.sig[v].Ref? && sh.sig[v].v !in at.base && (sh.sig[v] == sh.sig[w] ==> v == w))
    && (forall v <- sh.shared :: v in sh.sig && v !in sh.fixed && sh.sig[v].Ref? && sh.sig[v].v in at.base
                                 && at.f0[sh.sig[v].v] in at.db.dom)
    && (forall v <- sh.fixed :: v in sh.sig && (sh.sig[v].Ref? ==> sh.sig[v].v in at.base))
    && (forall d <- sh.drops :: exists x, y :: States(d, x, y, sh, at))
  }

  /** A dropped relation about `y`, under `And` and `Exists` only. */
  predicate DropsFor(n: Node<SnipVar>, y: SnipVar, drops: set<Node<SnipVar>>) {
    match n
    case And(l, r) => DropsFor(l, y, drops) || DropsFor(r, y, drops)
    case Exists(c) => DropsFor(c, y, drops)
    case Rel(_, s, o) => n in drops && (s == Ref(y) || o == Ref(y))
    case Or(_, _) => false
    case Not(_) => false
  }

  /** No relation is dropped under `Or` or `Not`. */
  predicate DropsWell(n: Node<SnipVar>, drops: set<Node<SnipVar>>) {
    match n
    case And(l, r) => DropsWell(l, drops) && DropsWell(r, drops)
    case Exists(c) => DropsWell(c, drops)
    case Rel(_, _, _) => true
    case Or(l, r) => DropsNothing(l, drops) && DropsNothing(r, drops)
    case Not(c) => DropsNothing(c, drops)
  }

  predicate DropsNothing(n: Node<SnipVar>, drops: set<Node<SnipVar>>) {
    match n
    case And(l, r) => DropsNothing(l, drops) && DropsNothing(r, drops)
    case Or(l, r) => DropsNothing(l, drops) && DropsNothing(r, drops)
    case Not(c) => DropsNothing(c, drops)
    case Exists(c) => DropsNothing(c, drops)
    case Rel(_, _, _) => n !in drops
  }

  /** Each shared variable that is not bound yet is pinned by a relation inside. */
  ghost predicate Pinned(n: Node<SnipVar>, sh: Sharing, bound: set<SnipVar>) {
    && Vars(n) <= sh.sig.Keys && DropsWell(n, sh.drops)
    && forall y <- sh.shared :: y in Vars(n) && y !in bound ==> DropsFor(n, y, sh.drops)
  }

  // ----- variables

  lemma {:induction false} FreshVarsStay(n: Node<SnipVar>, v: SnipVar, sh: Sharing, at: Site)
    requires Sound(sh, at) && Fresh(v, sh)
    ensures v in Vars(n) ==> Rewritten(n, sh).Some? && sh.sig[v].v in Vars(Rewritten(n, sh).value)
    ensures v in Local(n) ==> Rewritten(n, sh).Some? && sh.sig[v].v in Local(Rewritten(n, sh).value)
  {
    match n
    case And(l, r) => FreshVarsStay(l, v, sh, at); FreshVarsStay(r, v, sh, at);
    case Or(l, r) => FreshVarsStay(l, v, sh, at); FreshVarsStay(r, v, sh, at);
    case Not(c) => FreshVarsStay(c, v, sh, at);
    case Exists(c) => FreshVarsStay(c, v, sh, at);
    case Rel(_, s, o) =>
      if n in sh.drops {
        var x, y :| States(n, x, y, sh, at);
      }
  }

  lemma {:induction false} VarsComeFrom(n: Node<SnipVar>, w: Var, sh: Sharing, at: Site)
    requires Sound(sh, at) && Vars(n) <= sh.sig.Keys && Rewritten(n, sh).Some?
    ensures w in Vars(Rewritten(n, sh).value) ==> exists v :: v in Vars(n) && sh.sig[v] == Ref(w)
    ensures w in Local(Rewritten(n, sh).value) && w !in at.base ==>
              exists v :: v in Local(n) && Fresh(v, sh) && sh.sig[v] == Ref(w)
    decreases n, 1
  {
    match n
    case And(l, r) => BothComeFrom(n, l, r, w, sh, at);
    case Or(l, r) => BothComeFrom(n, l, r, w, sh, at);
    case Not(c) => VarsComeFrom(c, w, sh, at);
    case Exists(c) => VarsComeFrom(c, w, sh, at);
    case Rel(_, s, o) =>
  }

  lemma {:induction false} BothComeFrom(n: Node<SnipVar>, l: Node<SnipVar>, r: Node<SnipVar>, w: Var, sh: Sharing,
                                        at: Site)
    requires n == And(l, r) || n == Or(l, r)
    requires Sound(sh, at) && Vars(l) + Vars(r) <= sh.sig.Keys
    ensures Rewritten(l, sh).Some? && w in Vars(Rewritten(l, sh).value) ==>
              exists v :: v in Vars(l) && sh.sig[v] == Ref(w)
    ensures Rewritten(r, sh).Some? && w in Vars(Rewritten(r, sh).value) ==>
              exists v :: v in Vars(r) && sh.sig[v] == Ref(w)
    ensures (Rewritten(l, sh).Some? && w in Local(Rewritten(l, sh).value))
            || (Rewritten(r, sh).Some? && w in Local(Rewritten(r, sh).value))
            || (Rewritten(l, sh).Some? && Rewritten(r, sh).Some?
                && w in Vars(Rewritten(l, sh).value) * Vars(Rewritten(r, sh).value)) ==>
              w in at.base || exists v :: v in Local(n) && Fresh(v, sh) && sh.sig[v] == Ref(w)
    decreases n, 0
  {
    if Rewritten(l, sh).Some? {
      VarsComeFrom(l, w, sh, at);
    }
    if Rewritten(r, sh).Some? {
      VarsComeFrom(r, w, sh, at);
    }
  }

  // ----- meaning

  /** Values for the snippet's bound variables and values for the query's that say the same. */
  ghost predicate Corresponds(e: Env<SnipVar>, eb: set<SnipVar>, f: Env<Var>, fb: set<Var>, sh: Sharing, at: Site) {
    && eb <= e.Keys && eb <= sh.sig.Keys && sh.fixed <= eb
    && at.base <= at.f0.Keys && at.base <= fb <= f.Keys && (forall w <- at.base :: f[w] == at.f0[w])
    && (forall v <- eb :: e[v] == ValueOf(sh.sig[v], f) && (sh.sig[v].Ref? ==> sh.sig[v].v in fb))
    && (forall w <- fb :: w in at.base || exists v :: v in eb && Fresh(v, sh) && sh.sig[v] == Ref(w))
  }

  /** A dropped relation about a bound variable holds wherever the snippet does. */
  lemma {:induction false} PinHolds(n: Node<SnipVar>, y: SnipVar, e: Env<SnipVar>, eb: set<SnipVar>, sh: Sharing,
                                    at: Site)
    requires Sound(sh, at) && DropsFor(n, y, sh.drops) && Eval(n, e, eb, at.db)
    requires y in eb && y in sh.shared && sh.fixed <= eb <= e.Keys
    requires forall x <- sh.fixed :: e[x] == ValueOf(sh.sig[x], at.f0)
    ensures e[y] == ValueOf(sh.sig[y], at.f0)
  {
    match n
    case And(l, r) => if DropsFor(l, y, sh.drops) { PinHolds(l, y, e, eb, sh, at); }
        else { PinHolds(r, y, e, eb, sh, at); }
    case Exists(c) =>
      var e' :| Extends(e', e, eb, Local(c), at.db) && Eval(c, e', eb + Local(c), at.db);
      PinHolds(c, y, e', eb + Local(c), sh, at);
    case Rel(_, _, _) =>
      var x, z :| States(n, x, z, sh, at);
      assert z == y;
  }

  /** The variables of the scope of what is left of `c`. */
  function LocalLeft(c: Node<SnipVar>, sh: Sharing): set<Var> {
    if Rewritten(c, sh).Some? then Local(Rewritten(c, sh).value) else {}
  }

  ghost function Origin(w: Var, c: Node<SnipVar>, sh: Sharing): SnipVar
    requires exists v :: v in Local(c) && Fresh(v, sh) && sh.sig[v] == Ref(w)
  {
    var v :| v in Local(c) && Fresh(v, sh) && sh.sig[v] == Ref(w);
    v
  }

  lemma NewNameIsUnbound(v: SnipVar, e: Env<SnipVar>, eb: set<SnipVar>, f: Env<Var>, fb: set<Var>, sh: Sharing,
                         at: Site)
    requires Sound(sh, at) && Corresponds(e, eb, f, fb, sh, at) && Fresh(v, sh) && v !in eb
    ensures sh.sig[v].v !in fb
  {
  }

  /** Each new variable of the query's that is not bound yet comes from a variable of the snippet. */
  ghost predicate HaveOrigins(c: Node<SnipVar>, fb: set<Var>, sh: Sharing) {
    forall w <- LocalLeft(c, sh) :: w !in fb ==> exists v :: v in Local(c) && Fresh(v, sh) && sh.sig[v] == Ref(w)
  }

  lemma NewVarsHaveOrigins(c: Node<SnipVar>, fb: set<Var>, sh: Sharing, at: Site)
    requires Sound(sh, at) && Vars(c) <= sh.sig.Keys && at.base <= fb
    ensures HaveOrigins(c, fb, sh)
  {
    forall w | w in LocalLeft(c, sh) && w !in fb
      ensures exists v :: v in Local(c) && Fresh(v, sh) && sh.sig[v] == Ref(w)
    {
      VarsComeFrom(c, w, sh, at);
    }
  }

  ghost function QueryEnv(c: Node<SnipVar>, f: Env<Var>, fb: set<Var>, e': Env<SnipVar>, sh: Sharing): Env<Var>
    requires HaveOrigins(c, fb, sh) && fb <= f.Keys && Local(c) <= e'.Keys
  {
    map w | w in fb + LocalLeft(c, sh) :: if w in fb then f[w] else e'[Origin(w, c, sh)]
  }

  lemma QueryValue(c: Node<SnipVar>, e: Env<SnipVar>, eb: set<SnipVar>, f: Env<Var>, fb: set<Var>, e': Env<SnipVar>,
                   v: SnipVar, sh: Sharing, at: Site)
    requires Sound(sh, at) && Corresponds(e, eb, f, fb, sh, at) && Vars(c) <= sh.sig.Keys && HaveOrigins(c, fb, sh)
    requires Extends(e', e, eb, Local(c), at.db) && sh.fixed <= eb && v in eb + Local(c)
    requires v in sh.shared && v in Local(c) && v !in eb ==> e'[v] == ValueOf(sh.sig[v], at.f0)
    ensures e'[v] == ValueOf(sh.sig[v], QueryEnv(c, f, fb, e', sh))
    ensures sh.sig[v].Ref? ==> sh.sig[v].v in fb + LocalLeft(c, sh)
  {
    if v !in eb && Fresh(v, sh) {
      FreshVarsStay(c, v, sh, at);
      NewNameIsUnbound(v, e, eb, f, fb, sh, at);
      assert Origin(sh.sig[v].v, c, sh) == v;
    }
  }

  lemma QueryExtends(c: Node<SnipVar>, e: Env<SnipVar>, eb: set<SnipVar>, f: Env<Var>, fb: set<Var>, e': Env<SnipVar>,
                     sh: Sharing, at: Site)
    requires Corresponds(e, eb, f, fb, sh, at) && HaveOrigins(c, fb, sh) && Extends(e', e, eb, Local(c), at.db)
    requires forall v <- eb :: v in sh.sig && (Fresh(v, sh) && sh.sig[v].Ref? ==> sh.sig[v].v in fb)
    ensures Extends(QueryEnv(c, f, fb, e', sh), f, fb, LocalLeft(c, sh), at.db)
  {
    hide Local, LocalLeft;
    forall w | w in LocalLeft(c, sh) - fb
      ensures QueryEnv(c, f, fb, e', sh)[w] in at.db.dom
    {
      assert Origin(w, c, sh) !in eb;
    }
  }

  /** Values that make the snippet hold give values to the query's new variables. */
  lemma QueryValues(c: Node<SnipVar>, e: Env<SnipVar>, eb: set<SnipVar>, f: Env<Var>, fb: set<Var>,
                    e': Env<SnipVar>, sh: Sharing, at: Site) returns (f': Env<Var>)
    requires Sound(sh, at) && Corresponds(e, eb, f, fb, sh, at) && Vars(c) <= sh.sig.Keys
    requires Extends(e', e, eb, Local(c), at.db)
    requires forall y <- sh.shared :: y in Local(c) && y !in eb ==> e'[y] == ValueOf(sh.sig[y], at.f0)
    requires forall x <- sh.fixed :: x in eb
    ensures Extends(f', f, fb, LocalLeft(c, sh), at.db)
    ensures Corresponds(e', eb + Local(c), f', fb + LocalLeft(c, sh), sh, at)
  {
    NewVarsHaveOrigins(c, fb, sh, at);
    f' := QueryEnv(c, f, fb, e', sh);
    QueryExtends(c, e, eb, f, fb, e', sh, at);
    forall v | v in eb + Local(c)
      ensures e'[v] == ValueOf(sh.sig[v], f') && (sh.sig[v].Ref? ==> sh.sig[v].v in fb + LocalLeft(c, sh))
    {
      QueryValue(c, e, eb, f, fb, e', v, sh, at);
    }
    hide Local, Vars, LocalLeft, Sound;
  }

  /** Values that make the rewritten snippet hold give values to the snippet's variables. */
  lemma SnippetValues(c: Node<SnipVar>, e: Env<SnipVar>, eb: set<SnipVar>, f: Env<Var>, fb: set<Var>,
                      f': Env<Var>, sh: Sharing, at: Site) returns (e': Env<SnipVar>)
    requires Sound(sh, at) && Corresponds(e, eb, f, fb, sh, at) && Vars(c) <= sh.sig.Keys
    requires Extends(f', f, fb, LocalLeft(c, sh), at.db)
    ensures Extends(e', e, eb, Local(c), at.db)
    ensures Corresponds(e', eb + Local(c), f', fb + LocalLeft(c, sh), sh, at)
  {
    var more := LocalLeft(c, sh);
    e' := map v | v in eb + Local(c) :: if v in eb then e[v] else ValueOf(sh.sig[v], f');
    forall v | v in Local(c) && v !in eb
      ensures e'[v] in at.db.dom && (sh.sig[v].Ref? ==> sh.sig[v].v in fb + more)
    {
      if Fresh(v, sh) {
        FreshVarsStay(c, v, sh, at);
        NewNameIsUnbound(v, e, eb, f, fb, sh, at);
      }
    }
    forall w | w in fb + more
      ensures w in at.base || exists v :: v in eb + Local(c) && Fresh(v, sh) && sh.sig[v] == Ref(w)
    {
      if w !in fb {
        VarsComeFrom(c, w, sh, at);
      }
    }
  }

  // ----- the equivalence

  lemma {:induction false} DropsForVars(n: Node<SnipVar>, y: SnipVar, drops: set<Node<SnipVar>>)
    ensures DropsFor(n, y, drops) ==> y in Vars(n)
  {
    match n
    case And(l, r) => DropsForVars(l, y, drops); DropsForVars(r, y, drops);
    case Exists(c) => DropsForVars(c, y, drops);
    case _ =>
  }

  lemma {:induction false} NothingDropped(n: Node<SnipVar>, sh: Sharing)
    requires DropsNothing(n, sh.drops)
    ensures DropsWell(n, sh.drops) && Rewritten(n, sh).Some?
  {
    match n
    case And(l, r) => NothingDropped(l, sh); NothingDropped(r, sh);
    case Or(l, r) => NothingDropped(l, sh); NothingDropped(r, sh);
    case Not(c) => NothingDropped(c, sh);
    case Exists(c) => NothingDropped(c, sh);
    case Rel(_, _, _) =>
  }

  lemma RelationMeaning(n: Node<SnipVar>, e: Env<SnipVar>, eb: set<SnipVar>, f: Env<Var>, fb: set<Var>, sh: Sharing,
                        at: Site)
    requires n.Rel? && Sound(sh, at) && Corresponds(e, eb, f, fb, sh, at) && Pinned(n, sh, eb) && Local(n) <= eb
    ensures match Rewritten(n, sh)
            case None => Eval(n, e, eb, at.db)
            case Some(n') => Eval(n, e, eb, at.db) <==> Eval(n', f, fb, at.db)
  {
    if n in sh.drops {
      var x, y :| States(n, x, y, sh, at);
    }
  }

  /** In values that correspond, the snippet and what is left of it hold alike;
      when nothing is left of it, it holds. */
  lemma {:induction false} SameMeaning(n: Node<SnipVar>, e: Env<SnipVar>, eb: set<SnipVar>, f: Env<Var>, fb: set<Var>,
                                       sh: Sharing, at: Site)
    requires Sound(sh, at) && Corresponds(e, eb, f, fb, sh, at) && Pinned(n, sh, eb) && Local(n) <= eb
    ensures match Rewritten(n, sh)
            case None => Eval(n, e, eb, at.db)
            case Some(n') => Eval(n, e, eb, at.db) <==> Eval(n', f, fb, at.db)
    decreases n, 0
  {
    hide Corresponds, Sound;
    match n
    case And(l, r) =>
      DropsForBoth(l, r, eb, sh);
      SameMeaning(l, e, eb, f, fb, sh, at);
      SameMeaning(r, e, eb, f, fb, sh, at);
    case Or(l, r) =>
      NothingDropped(l, sh);
      NothingDropped(r, sh);
      SameMeaning(l, e, eb, f, fb, sh, at);
      SameMeaning(r, e, eb, f, fb, sh, at);
    case Not(c) =>
      NothingDropped(c, sh);
      SameMeaning(c, e, eb, f, fb, sh, at);
    case Exists(c) =>
      SameSat(c, e, eb, f, fb, sh, at);
    case Rel(_, _, _) => RelationMeaning(n, e, eb, f, fb, sh, at);
  }

  /** A shared variable that only one side of a conjunction knows is pinned on that side. */
  lemma DropsForBoth(l: Node<SnipVar>, r: Node<SnipVar>, eb: set<SnipVar>, sh: Sharing)
    requires Pinned(And(l, r), sh, eb) && Local(And(l, r)) <= eb
    ensures Pinned(l, sh, eb) && Pinned(r, sh, eb)
  {
    forall y | y in sh.shared && y !in eb
      ensures y in Vars(l) ==> DropsFor(l, y, sh.drops)
      ensures y in Vars(r) ==> DropsFor(r, y, sh.drops)
    {
      DropsForVars(l, y, sh.drops);
      DropsForVars(r, y, sh.drops);
    }
  }

  lemma SameSat(c: Node<SnipVar>, e: Env<SnipVar>, eb: set<SnipVar>, f: Env<Var>, fb: set<Var>, sh: Sharing, at: Site)
    requires Sound(sh, at) && Corresponds(e, eb, f, fb, sh, at) && Pinned(c, sh, eb)
    ensures match Rewritten(c, sh)
            case None => Sat(c, e, eb, at.db)
            case Some(c') => Sat(c, e, eb, at.db) <==> Sat(c', f, fb, at.db)
    decreases c, 1
  {
    var more := LocalLeft(c, sh);
    if Sat(c, e, eb, at.db) && Rewritten(c, sh).Some? {
      var e' :| Extends(e', e, eb, Local(c), at.db) && Eval(c, e', eb + Local(c), at.db);
      PinsHold(c, e, eb, f, fb, e', sh, at);
      var f' := QueryValues(c, e, eb, f, fb, e', sh, at);
      SameMeaning(c, e', eb + Local(c), f', fb + more, sh, at);
    }
    if Rewritten(c, sh).None? {
      assert Extends(f, f, fb, {}, at.db);
      var e' := SnippetValues(c, e, eb, f, fb, f, sh, at);
      SameMeaning(c, e', eb + Local(c), f, fb + more, sh, at);
    } else if Sat(Rewritten(c, sh).value, f, fb, at.db) {
      var f' :| Extends(f', f, fb, more, at.db) && Eval(Rewritten(c, sh).value, f', fb + more, at.db);
      var e' := SnippetValues(c, e, eb, f, fb, f', sh, at);
      SameMeaning(c, e', eb + Local(c), f', fb + more, sh, at);
    }
  }

  /** Values that make a snippet hold give its shared variables the values that the query gives them. */
  lemma PinsHold(c: Node<SnipVar>, e: Env<SnipVar>, eb: set<SnipVar>, f: Env<Var>, fb: set<Var>, e': Env<SnipVar>,
                 sh: Sharing, at: Site)
    requires Sound(sh, at) && Corresponds(e, eb, f, fb, sh, at) && Pinned(c, sh, eb)
    requires Extends(e', e, eb, Local(c), at.db) && Eval(c, e', eb + Local(c), at.db)
    ensures forall y <- sh.shared :: y in Local(c) && y !in eb ==> e'[y] == ValueOf(sh.sig[y], at.f0)
  {
    forall y | y in sh.shared && y in Local(c) && y !in eb
      ensures e'[y] == ValueOf(sh.sig[y], at.f0)
    {
      PinHolds(c, y, e', eb + Local(c), sh, at);
    }
  }
}
