/** RQL restrictions as trees, and what they mean over a database. */
module RqlTrees {

  type Val = int
  type EType = string

  /** A database: a finite set of values with their types, and who is related to whom. */
  datatype Db = Db(dom: set<Val>, rel: (string, Val, Val) -> bool, typeOf: Val -> EType)

  /** An operand of a relation: a variable, or a constant (an eid). */
  datatype Term<V> = Ref(v: V) | Const(c: Val)

  datatype Node<V> =
    | And(l: Node<V>, r: Node<V>)
    | Or(l: Node<V>, r: Node<V>)
    | Not(c: Node<V>)
    | Exists(c: Node<V>)
    | Rel(rtype: string, s: Term<V>, o: Term<V>)

  type Env<!V> = map<V, Val>

  function TermVars<V>(t: Term<V>): set<V> {
    if t.Ref? then {t.v} else {}
  }

  function Vars<V>(n: Node<V>): set<V> {
    match n
    case And(l, r) => Vars(l) + Vars(r)
    case Or(l, r) => Vars(l) + Vars(r)
    case Not(c) => Vars(c)
    case Exists(c) => Vars(c)
    case Rel(_, s, o) => TermVars(s) + TermVars(o)
  }

  /** The variables whose scope is the one that `n` stands in: those that no single `Exists` of `n` contains all the
      references of. */
  function Local<V>(n: Node<V>): (vs: set<V>)
    ensures vs <= Vars(n)
  {
    match n
    case And(l, r) => Local(l) + Local(r) + Vars(l) * Vars(r)
    case Or(l, r) => Local(l) + Local(r) + Vars(l) * Vars(r)
    case Not(c) => Local(c)
    case Exists(_) => {}
    case Rel(_, s, o) => TermVars(s) + TermVars(o)
  }

  function ValueOf<V>(t: Term<V>, e: Env<V>): Val {
    match t
    case Ref(v) => if v in e then e[v] else 0
    case Const(c) => c
  }

  /** `e'` gives values of the database to the variables `vs` and keeps those that are bound. */
  ghost predicate Extends<V(!new)>(e': Env<V>, e: Env<V>, bound: set<V>, vs: set<V>, db: Db) {
    && bound + vs <= e'.Keys
    && (forall v <- bound :: v in e && e'[v] == e[v])
    && (forall v <- vs - bound :: e'[v] in db.dom)
  }

  /** Whether a restriction holds of the values given to the bound variables. `Exists` quantifies over the variables
      of its scope; `Not` has no scope of its own. */
  ghost predicate Eval<V(!new)>(n: Node<V>, e: Env<V>, bound: set<V>, db: Db)
    decreases n, 0
  {
    match n
    case And(l, r) => Eval(l, e, bound, db) && Eval(r, e, bound, db)
    case Or(l, r) => Eval(l, e, bound, db) || Eval(r, e, bound, db)
    case Not(c) => !Eval(c, e, bound, db)
    case Exists(c) => Sat(c, e, bound, db)
    case Rel(rtype, s, o) => db.rel(rtype, ValueOf(s, e), ValueOf(o, e))
  }

  /** Some values for the variables of its scope make `c` hold. */
  ghost predicate Sat<V(!new)>(c: Node<V>, e: Env<V>, bound: set<V>, db: Db)
    decreases c, 1
  {
    exists e' :: Extends(e', e, bound, Local(c), db) && Eval(c, e', bound + Local(c), db)
  }

  /** Only the values of bound variables count. */
  lemma {:induction false} EvalAgrees<V(!new)>(n: Node<V>, e: Env<V>, f: Env<V>, bound: set<V>, db: Db)
    requires bound <= e.Keys && bound <= f.Keys && Local(n) <= bound
    requires forall v <- bound :: e[v] == f[v]
    ensures Eval(n, e, bound, db) <==> Eval(n, f, bound, db)
  {
    match n
    case And(l, r) => EvalAgrees(l, e, f, bound, db); EvalAgrees(r, e, f, bound, db);
    case Or(l, r) => EvalAgrees(l, e, f, bound, db); EvalAgrees(r, e, f, bound, db);
    case Not(c) => EvalAgrees(c, e, f, bound, db);
    case Exists(c) => SatAgrees(c, e, f, bound, db);
    case Rel(_, _, _) =>
  }

  lemma SatAgrees<V(!new)>(c: Node<V>, e: Env<V>, f: Env<V>, bound: set<V>, db: Db)
    requires bound <= e.Keys && bound <= f.Keys
    requires forall v <- bound :: e[v] == f[v]
    ensures Sat(c, e, bound, db) <==> Sat(c, f, bound, db)
  {
    forall e' | Extends(e', e, bound, Local(c), db)
      ensures Extends(e', f, bound, Local(c), db)
    {
    }
    forall e' | Extends(e', f, bound, Local(c), db)
      ensures Extends(e', e, bound, Local(c), db)
    {
    }
  }

  /** When all variables of the scope are bound, there is nothing to quantify over. */
  lemma SatWhenBound<V(!new)>(n: Node<V>, e: Env<V>, bound: set<V>, db: Db)
    requires bound <= e.Keys && Local(n) <= bound
    ensures Sat(n, e, bound, db) <==> Eval(n, e, bound, db)
  {
    assert bound + Local(n) == bound;
    if Eval(n, e, bound, db) {
      assert Extends(e, e, bound, Local(n), db);
    }
    forall e' | Extends(e', e, bound, Local(n), db) && Eval(n, e', bound, db)
      ensures Eval(n, e, bound, db)
    {
      EvalAgrees(n, e', e, bound, db);
    }
  }
}
