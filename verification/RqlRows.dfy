/** Solutions and rows of a query, and what the rewriting of a query makes of them. */
module RqlRows {
  import opened RqlTrees
  import opened RqlSharing
  import opened RqlVisitors
  import opened RqlVisits
  import opened RqlSnippets
  import opened RqlRewriters
  import opened RqlRewritings
  import opened Wrappers

  // ----- solutions and rows

  /** All ways to give values of the database to variables. */
  ghost function Envs(vars: set<Var>, dom: set<Val>): set<Env<Var>>
    decreases |vars|
  {
    if vars == {} then {map[]}
    else
      Extended(Envs(vars - {Pick(vars)}, dom), Pick(vars), dom)
  }

  ghost function Extended(envs: set<Env<Var>>, v: Var, dom: set<Val>): set<Env<Var>> {
    set e, x | e in envs && x in dom :: e[v := x]
  }

  lemma IsExtended(envs: set<Env<Var>>, v: Var, dom: set<Val>, d: Env<Var>, x: Val)
    requires d in envs && x in dom
    ensures d[v := x] in Extended(envs, v, dom)
  {
  }

  ghost function Pick<T>(s: set<T>): (x: T)
    requires s != {}
    ensures x in s
  {
    var x :| x in s;
    x
  }

  predicate Gives(e: Env<Var>, vars: set<Var>, dom: set<Val>) {
    e.Keys == vars && forall v <- vars :: e[v] in dom
  }

  lemma {:induction false} EnvsGive(vars: set<Var>, dom: set<Val>)
    ensures forall e <- Envs(vars, dom) :: Gives(e, vars, dom)
    decreases |vars|
  {
    if vars != {} {
      EnvsGive(vars - {Pick(vars)}, dom);
    }
  }

  lemma {:induction false} EnvsAreAll(vars: set<Var>, dom: set<Val>, e: Env<Var>)
    ensures e in Envs(vars, dom) <==> Gives(e, vars, dom)
    decreases |vars|
  {
    if vars == {} {
      assert e.Keys == {} ==> e == map[];
    } else {
      EnvsGive(vars, dom);
      if Gives(e, vars, dom) {
        var v := Pick(vars);
        var d := e - {v};
        EnvsAreAll(vars - {v}, dom, d);
        IsExtended(Envs(vars - {v}, dom), v, dom, d, e[v]);
        assert e == d[v := e[v]];
      }
    }
  }

  /** `add_types_restriction`: the types that variables may have. */
  ghost predicate TypesFit(e: Env<Var>, types: map<Var, set<EType>>, db: Db) {
    forall v <- types :: v in e && db.typeOf(e[v]) in types[v]
  }

  ghost function Solutions(where: Node<Var>, types: map<Var, set<EType>>, vars: set<Var>, db: Db): set<Env<Var>> {
    set e | e in Envs(vars, db.dom) && Eval(where, e, vars, db) && TypesFit(e, types, db)
  }

  function Row(selection: seq<Var>, e: Env<Var>): seq<Val> {
    seq(|selection|, i requires 0 <= i < |selection| => ValueOf(Ref(selection[i]), e))
  }

  /** How often a row comes up. */
  ghost function Count(row: seq<Val>, selection: seq<Var>, solutions: set<Env<Var>>): nat {
    |set e | e in solutions && Row(selection, e) == row|
  }

  /** The bag of rows of a set of solutions. */
  ghost function RowsOf(selection: seq<Var>, solutions: set<Env<Var>>): multiset<seq<Val>>
    decreases |solutions|
  {
    if solutions == {} then multiset{}
    else
      var e := Pick(solutions);
      multiset{Row(selection, e)} + RowsOf(selection, solutions - {e})
  }

  lemma {:induction false} RowsAreCounted(selection: seq<Var>, solutions: set<Env<Var>>, row: seq<Val>)
    ensures RowsOf(selection, solutions)[row] == Count(row, selection, solutions)
    decreases |solutions|
  {
    var with := set e | e in solutions && Row(selection, e) == row;
    if solutions == {} {
      assert with == {};
    } else {
      var e := Pick(solutions);
      RowsAreCounted(selection, solutions - {e}, row);
      assert (set d | d in solutions - {e} && Row(selection, d) == row) == with - {e};
    }
  }

  /** Two solutions with the same row. */
  lemma RowTwice(selection: seq<Var>, solutions: set<Env<Var>>, a: Env<Var>, b: Env<Var>)
    requires a in solutions && b in solutions && a != b && Row(selection, a) == Row(selection, b)
    ensures Count(Row(selection, a), selection, solutions) >= 2
  {
    AtLeastTwo((set e | e in solutions && Row(selection, e) == Row(selection, a)), a, b);
  }

  lemma AtLeastTwo<T>(s: set<T>, a: T, b: T)
    requires a in s && b in s && a != b
    ensures |s| >= 2
  {
    assert |s| == |s - {a}| + 1 && |s - {a}| == |s - {a} - {b}| + 1;
  }

  // ----- one more bound variable

  /** A bound variable that a restriction does not mention makes no difference. */
  lemma {:induction false} OneMoreBound(n: Node<Var>, e: Env<Var>, bound: set<Var>, u: Var, db: Db)
    requires bound <= e.Keys && u in e && u !in bound && u !in Vars(n)
    ensures Eval(n, e, bound, db) <==> Eval(n, e, bound + {u}, db)
    decreases n, 0
  {
    match n
    case And(l, r) => OneMoreBound(l, e, bound, u, db); OneMoreBound(r, e, bound, u, db);
    case Or(l, r) => OneMoreBound(l, e, bound, u, db); OneMoreBound(r, e, bound, u, db);
    case Not(c) => OneMoreBound(c, e, bound, u, db);
    case Exists(c) => OneMoreBoundSat(c, e, bound, u, db);
    case Rel(_, _, _) =>
  }

  lemma OneMoreBoundSat(c: Node<Var>, e: Env<Var>, bound: set<Var>, u: Var, db: Db)
    requires bound <= e.Keys && u in e && u !in bound && u !in Vars(c)
    ensures Sat(c, e, bound, db) <==> Sat(c, e, bound + {u}, db)
    decreases c, 1
  {
    var all := bound + Local(c);
    assert bound + {u} + Local(c) == all + {u};
    if Sat(c, e, bound, db) {
      var e' :| Extends(e', e, bound, Local(c), db) && Eval(c, e', all, db);
      var f := e'[u := e[u]];
      EvalAgrees(c, e', f, all, db);
      OneMoreBound(c, f, all, u, db);
      assert Extends(f, e, bound + {u}, Local(c), db);
    }
    if Sat(c, e, bound + {u}, db) {
      var f :| Extends(f, e, bound + {u}, Local(c), db) && Eval(c, f, all + {u}, db);
      OneMoreBound(c, f, all, u, db);
      assert Extends(f, e, bound, Local(c), db);
    }
  }

  // ----- all stages of the rewriting

  ghost predicate AllowsAll(stages: seq<Stage>, f: Env<Var>, db: Db) {
    forall st <- stages :: Allows(st.log, st.ctx, f, db)
  }

  /** The index of each stage is right about the query that it is made of, and its snippets can be inserted. */
  ghost predicate WellStaged(stages: seq<Stage>, base: set<Var>) {
    forall st <- stages :: Mapped(st.ctx, base, st.start) && Indexed(st.ctx, st.tree)
        && Suited(st.log, st.ctx, st.start)
  }

  /** Every solution of the query `first` has the types that the indexes say. */
  ghost predicate Typed(stages: seq<Stage>, f: Env<Var>, base: set<Var>, db: Db) {
    forall st <- stages :: Conforms(db, st.ctx.schema) && Values(f, base, st.ctx, db)
  }

  lemma {:induction false} StagesName(stages: seq<Stage>, user: Node<Var>, first: Node<Var>, last: Node<Var>, lo: Var,
                                      hi: Var, base: set<Var>)
    requires Staged(stages, user, first, last, lo, hi) && WellStaged(stages, base)
    requires Local(first) <= base && Vars(user) <= base && (forall v <- Vars(first) :: v < lo)
               && (forall v <- base :: v < lo)
    ensures lo <= hi && Local(last) <= base && forall v <- Vars(last) :: v < hi
  {
    if stages != [] {
      var st := stages[|stages| - 1];
      StagesName(stages[..|stages| - 1], user, first, st.tree, lo, st.start, base);
      assert st in stages;
      StartsInOrder(st.log, st.ctx, st.start, hi);
      LogNames(st.log, st.ctx, st.tree, base, st.start, hi);
      ShapeNames(st.tree, user, Roots(st.log, st.ctx), st.when, base, st.start, hi);
    }
  }

  /** `at` gives values to the variables in scope, and to the user's. */
  ghost predicate AtStages(stages: seq<Stage>, user: Node<Var>, first: Node<Var>, last: Node<Var>, lo: Var, hi: Var,
                           at: Site) {
    && Staged(stages, user, first, last, lo, hi) && WellStaged(stages, at.base)
    && Local(first) <= at.base && Vars(user) <= at.base && (forall v <- Vars(first) :: v < lo)
        && (forall v <- at.base :: v < lo)
    && Eval(user, at.f0, at.base, at.db)
    && (Eval(first, at.f0, at.base, at.db) ==> Typed(stages, at.f0, at.base, at.db))
  }

  /** The rewritten query holds where the query does and every check lets the solution through. */
  lemma {:induction false} StagesMean(stages: seq<Stage>, user: Node<Var>, first: Node<Var>, last: Node<Var>, lo: Var,
                                      hi: Var, at: Site)
    requires AtStages(stages, user, first, last, lo, hi, at)
    ensures Eval(last, at.f0, at.base, at.db) <==>
            Eval(first, at.f0, at.base, at.db) && AllowsAll(stages, at.f0, at.db)
  {
    if stages != [] {
      var st := stages[|stages| - 1];
      var before := stages[..|stages| - 1];
      assert forall d :: d in stages <==> d in before || d == st;
      StagesMean(before, user, first, st.tree, lo, st.start, at);
      StagesName(before, user, first, st.tree, lo, st.start, at.base);
      ShapeAllows(st.log, st.ctx, st.tree, user, st.when, st.start, at);
    }
  }
}
