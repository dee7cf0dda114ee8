/** What a select makes of the solutions of its restriction: the values of its terms, then groups and aggregates, then
    distinct rows, then a slice of them. */
module RqlSelects {
  import opened RqlTrees
  import opened RqlSharing
  import opened RqlRows
  import opened Wrappers

  // ----- bags

  ghost function AnyOf<T>(b: multiset<T>): (x: T)
    requires b != multiset{}
    ensures x in b
  {
    var x :| x in b;
    x
  }

  ghost function MapBag<A, B>(f: A -> B, b: multiset<A>): (r: multiset<B>)
    ensures |r| == |b|
    decreases |b|
  {
    if b == multiset{} then multiset{}
    else
      var x := AnyOf(b);
      MapBag(f, b - multiset{x}) + multiset{f(x)}
  }

  lemma OneLess<T>(b: multiset<T>, x: T)
    requires x in b
    ensures b == (b - multiset{x}) + multiset{x}
  {
  }

  lemma TakeBoth<T>(b: multiset<T>, x: T, y: T)
    requires x in b && y in b && x != y
    ensures x in b - multiset{y} && y in b - multiset{x}
    ensures b - multiset{y} - multiset{x} == b - multiset{x} - multiset{y}
  {
  }

  lemma AddBoth<T>(b: multiset<T>, x: T, y: T)
    ensures b + multiset{x} + multiset{y} == b + multiset{y} + multiset{x}
  {
  }

  lemma TakeFromSum<T>(a: multiset<T>, b: multiset<T>, x: T)
    requires x in b
    ensures x in a + b && (a + b) - multiset{x} == a + (b - multiset{x})
  {
  }

  lemma SumsOn<T>(a: multiset<T>, b: multiset<T>, c: multiset<T>)
    ensures (a + b) + c == a + (b + c)
  {
  }

  /** The order in which the elements are taken does not matter. */
  lemma {:induction false} MapAdds<A, B>(f: A -> B, b: multiset<A>, x: A)
    requires x in b
    ensures MapBag(f, b) == MapBag(f, b - multiset{x}) + multiset{f(x)}
    decreases |b|
  {
    var y := AnyOf(b);
    if y != x {
      TakeBoth(b, x, y);
      MapAdds(f, b - multiset{y}, x);
      MapAdds(f, b - multiset{x}, y);
      AddBoth(MapBag(f, b - multiset{x} - multiset{y}), f(x), f(y));
    }
  }

  lemma {:induction false} MapUnion<A, B>(f: A -> B, a: multiset<A>, b: multiset<A>)
    ensures MapBag(f, a + b) == MapBag(f, a) + MapBag(f, b)
    decreases |b|
  {
    if b == multiset{} {
      assert a + b == a;
    } else {
      var x := AnyOf(b);
      TakeFromSum(a, b, x);
      MapAdds(f, a + b, x);
      MapAdds(f, b, x);
      MapUnion(f, a, b - multiset{x});
      SumsOn(MapBag(f, a), MapBag(f, b - multiset{x}), multiset{f(x)});
    }
  }

  lemma {:induction false} MapTwice<A, B, C>(f: A -> B, g: B -> C, h: A -> C, b: multiset<A>)
    requires forall x <- b :: g(f(x)) == h(x)
    ensures MapBag(g, MapBag(f, b)) == MapBag(h, b)
    decreases |b|
  {
    if b == multiset{} {
    } else {
      var x := AnyOf(b);
      var rest := MapBag(f, b - multiset{x});
      MapTwice(f, g, h, b - multiset{x});
      AddedAndTaken(rest, f(x));
      MapAdds(g, rest + multiset{f(x)}, f(x));
    }
  }

  lemma AddedAndTaken<T>(b: multiset<T>, x: T)
    ensures x in b + multiset{x} && b + multiset{x} - multiset{x} == b
  {
  }

  lemma {:induction false} MapHas<A(!new), B>(f: A -> B, b: multiset<A>, y: B)
    ensures y in MapBag(f, b) <==> exists x :: x in b && f(x) == y
    decreases |b|
  {
    if b != multiset{} {
      var x := AnyOf(b);
      MapHas(f, b - multiset{x}, y);
      OneLess(b, x);
      assert forall z :: z in b <==> z == x || z in b - multiset{x};
    }
  }

  /** Each element once. */
  ghost function Once<T(!new)>(b: multiset<T>): (r: multiset<T>)
    ensures forall x :: r[x] == if x in b then 1 else 0
  {
    multiset(set x | x in b)
  }

  lemma {:induction false} FewerWhenLess<T(!new)>(a: multiset<T>, b: multiset<T>)
    requires forall x :: a[x] <= b[x]
    ensures |a| <= |b| && (|a| == |b| ==> a == b)
  {
    assert a + (b - a) == b;
    if |a| == |b| {
      assert b - a == multiset{};
    }
  }

  // ----- terms

  /** A term without aggregates. */
  datatype Expr =
    | Use(v: Var)
    | Given(c: Val)
    | Apply(fun: string, args: seq<Expr>)

  type Funs = (string, seq<Val>) -> Val

  function ExprValue(x: Expr, e: Env<Var>, funs: Funs): Val {
    match x
    case Use(v) => ValueOf(Ref(v), e)
    case Given(c) => c
    case Apply(fun, args) => funs(fun, seq(|args|, i requires 0 <= i < |args| => ExprValue(args[i], e, funs)))
  }

  /** `iget_nodes(VariableRef)`: the variables of terms that were not seen before. */
  function Columns(x: Expr, seen: seq<Var>): (cols: seq<Var>)
    ensures seen <= cols
    decreases x, if x.Apply? then |x.args| + 1 else 0
  {
    match x
    case Use(v) => if v in seen then seen else seen + [v]
    case Given(_) => seen
    case Apply(_, args) => ColumnsOfArgs(x, |args|, seen)
  }

  function ColumnsOfArgs(x: Expr, n: nat, seen: seq<Var>): (cols: seq<Var>)
    requires x.Apply? && n <= |x.args|
    ensures seen <= cols
    decreases x, n
  {
    if n == 0 then seen else Columns(x.args[n - 1], ColumnsOfArgs(x, n - 1, seen))
  }

  function ColumnsOf(terms: seq<Expr>): seq<Var> {
    if terms == [] then [] else Columns(terms[|terms| - 1], ColumnsOf(terms[..|terms| - 1]))
  }

  // ----- terms over the columns of a subquery

  /** The values of a row under the names of its columns. */
  function RowEnv(cols: seq<Var>, row: seq<Val>): (e: Env<Var>)
    requires |row| == |cols|
  {
    if cols == [] then map[] else RowEnv(cols[1..], row[1..])[cols[0] := row[0]]
  }

  lemma {:induction false} NamedValue(cols: seq<Var>, e: Env<Var>, v: Var)
    ensures |Row(cols, e)| == |cols|
    ensures v in cols ==> ValueOf(Ref(v), RowEnv(cols, Row(cols, e))) == ValueOf(Ref(v), e)
  {
    if cols != [] {
      assert Row(cols, e)[1..] == Row(cols[1..], e);
      NamedValue(cols[1..], e, v);
    }
  }

  /** The columns have all that a term needs. */
  lemma {:induction false} TermOverColumns(x: Expr, seen: seq<Var>, cols: seq<Var>, e: Env<Var>, funs: Funs)
    requires Columns(x, seen) <= cols
    ensures |Row(cols, e)| == |cols| && ExprValue(x, RowEnv(cols, Row(cols, e)), funs) == ExprValue(x, e, funs)
    decreases x, if x.Apply? then |x.args| + 1 else 0
  {
    match x
    case Use(v) =>
      assert v in Columns(x, seen);
      NamedValue(cols, e, v);
    case Given(_) =>
    case Apply(fun, args) =>
      ArgsOverColumns(x, |args|, seen, cols, e, funs);
      var named := RowEnv(cols, Row(cols, e));
      assert seq(|args|, i requires 0 <= i < |args| => ExprValue(args[i], named, funs))
          == seq(|args|, i requires 0 <= i < |args| => ExprValue(args[i], e, funs));
  }

  lemma {:induction false} ArgsOverColumns(x: Expr, n: nat, seen: seq<Var>, cols: seq<Var>, e: Env<Var>, funs: Funs)
    requires x.Apply? && n <= |x.args| && ColumnsOfArgs(x, n, seen) <= cols
    ensures |Row(cols, e)| == |cols|
    ensures forall i | 0 <= i < n :: ExprValue(x.args[i], RowEnv(cols, Row(cols, e)), funs)
              == ExprValue(x.args[i], e, funs)
    decreases x, n
  {
    if n > 0 {
      ArgsOverColumns(x, n - 1, seen, cols, e, funs);
      TermOverColumns(x.args[n - 1], ColumnsOfArgs(x, n - 1, seen), cols, e, funs);
    }
  }

  function Tuple(terms: seq<Expr>, e: Env<Var>, funs: Funs): seq<Val> {
    seq(|terms|, i requires 0 <= i < |terms| => ExprValue(terms[i], e, funs))
  }

  lemma {:induction false} TermsOverColumns(terms: seq<Expr>, cols: seq<Var>, e: Env<Var>, funs: Funs)
    requires ColumnsOf(terms) <= cols
    ensures |Row(cols, e)| == |cols| && Tuple(terms, RowEnv(cols, Row(cols, e)), funs) == Tuple(terms, e, funs)
  {
    if terms != [] {
      var n := |terms| - 1;
      TermsOverColumns(terms[..n], cols, e, funs);
      TermOverColumns(terms[n], ColumnsOf(terms[..n]), cols, e, funs);
      var named := RowEnv(cols, Row(cols, e));
      assert forall i | 0 <= i < n :: Tuple(terms, named, funs)[i] == Tuple(terms[..n], named, funs)[i];
      assert forall i | 0 <= i < n :: Tuple(terms, e, funs)[i] == Tuple(terms[..n], e, funs)[i];
    }
  }

  // ----- selects

  type Rows = multiset<seq<Val>>

  /** A select: the terms that it computes from a solution, what it makes of the bag of their values by grouping,
      aggregating and HAVING, whether rows are distinct, and what sorting, limit and offset make of the rows. */
  datatype Select = Select(terms: seq<Expr>, group: Option<Rows -> Rows>, distinct: bool, cut: Option<Rows -> Rows>,
      funs: Funs)
  {
    ghost function Finish(tuples: Rows): Rows {
      var grouped := if group.Some? then group.value(tuples) else tuples;
      var rows := if distinct then Once(grouped) else grouped;
      if cut.Some? then cut.value(rows) else rows
    }

    ghost function Tuples(solutions: multiset<Env<Var>>): Rows {
      MapBag(TupleOf(terms, funs), solutions)
    }

    /** What the select answers. */
    ghost function Answer(solutions: multiset<Env<Var>>): Rows {
      Finish(Tuples(solutions))
    }

    /** `select_only_variables`, `_expand_selection`: the variables that the terms need; groups and slices are left to
        the outer select. */
    function Inner(): Select {
      this.(terms := UsesOf(ColumnsOf(terms)), group := None, cut := None)
    }
  }

  function UsesOf(cols: seq<Var>): (terms: seq<Expr>)
    ensures |terms| == |cols| && forall i | 0 <= i < |cols| :: terms[i] == Use(cols[i])
  {
    seq(|cols|, i requires 0 <= i < |cols| => Use(cols[i]))
  }

  /** The rows of a subquery as solutions for the outer select. */
  ghost function NamedRows(cols: seq<Var>, rows: Rows): multiset<Env<Var>> {
    MapBag(NamedBy(cols), rows)
  }

  function TupleOf(terms: seq<Expr>, funs: Funs): Env<Var> -> seq<Val> {
    e => Tuple(terms, e, funs)
  }

  function RowIn(cols: seq<Var>): Env<Var> -> seq<Val> {
    e => Row(cols, e)
  }

  function NamedBy(cols: seq<Var>): seq<Val> -> Env<Var> {
    r => if |r| == |cols| then RowEnv(cols, r) else map[]
  }

  lemma OneMoreSolution(solutions: set<Env<Var>>, e: Env<Var>)
    requires e in solutions
    ensures multiset(solutions - {e}) == multiset(solutions) - multiset{e}
  {
  }

  lemma {:induction false} RowsAreMapped(cols: seq<Var>, solutions: set<Env<Var>>)
    ensures RowsOf(cols, solutions) == MapBag(RowIn(cols), multiset(solutions))
    decreases |solutions|
  {
    if solutions == {} {
      assert multiset(solutions) == multiset{};
    } else {
      var e := Pick(solutions);
      RowsAreMapped(cols, solutions - {e});
      OneMoreSolution(solutions, e);
      MapAdds(RowIn(cols), multiset(solutions), e);
    }
  }

  /** The inner select gives the rows of its columns. */
  lemma InnerTuples(s: Select, solutions: multiset<Env<Var>>)
    ensures s.Inner().Tuples(solutions) == MapBag(RowIn(ColumnsOf(s.terms)), solutions)
  {
    var cols := ColumnsOf(s.terms);
    forall e
      ensures Tuple(UsesOf(cols), e, s.funs) == Row(cols, e)
    {
    }
    MapAlike(TupleOf(UsesOf(cols), s.funs), RowIn(cols), solutions);
  }

  lemma {:induction false} MapAlike<A, B>(f: A -> B, g: A -> B, b: multiset<A>)
    requires forall x <- b :: f(x) == g(x)
    ensures MapBag(f, b) == MapBag(g, b)
    decreases |b|
  {
    if b != multiset{} {
      MapAlike(f, g, b - multiset{AnyOf(b)});
    }
  }

  /** The terms have the same values over the rows of the subquery as over the solutions. */
  lemma OuterTuples(s: Select, solutions: multiset<Env<Var>>)
    ensures s.Tuples(NamedRows(ColumnsOf(s.terms), MapBag(RowIn(ColumnsOf(s.terms)), solutions))) == s.Tuples(solutions)
  {
    var cols := ColumnsOf(s.terms);
    var tuple, row, named := TupleOf(s.terms, s.funs), RowIn(cols), NamedBy(cols);
    var named' := e => named(row(e));
    forall e
      ensures tuple(named'(e)) == tuple(e)
    {
      TermsOverColumns(s.terms, cols, e, s.funs);
    }
    MapTwice(row, named, named', solutions);
    MapTwice(named', tuple, tuple, solutions);
  }

  lemma SameElements<A(!new), B(!new)>(f: A -> B, a: multiset<A>, b: multiset<A>)
    requires forall r :: r in a <==> r in b
    ensures Once(MapBag(f, a)) == Once(MapBag(f, b))
  {
    forall t
      ensures t in MapBag(f, a) <==> t in MapBag(f, b)
    {
      MapHas(f, a, t);
      MapHas(f, b, t);
    }
  }

  lemma TuplesOfRows(s: Select, rows: Rows, both: seq<Val> -> seq<Val>)
    requires forall r :: both(r) == TupleOf(s.terms, s.funs)(NamedBy(ColumnsOf(s.terms))(r))
    ensures s.Tuples(NamedRows(ColumnsOf(s.terms), rows)) == MapBag(both, rows)
  {
    MapTwice(NamedBy(ColumnsOf(s.terms)), TupleOf(s.terms, s.funs), both, rows);
  }

  lemma DistinctFinish(s: Select, a: Rows, b: Rows)
    requires s.distinct && s.group.None? && Once(a) == Once(b)
    ensures s.Finish(a) == s.Finish(b)
  {
    hide Once;
  }

  /** What the outer select makes of distinct rows, when it does not group them, is what it makes of all rows. */
  lemma DistinctTuples(s: Select, a: Rows, b: Rows)
    requires s.distinct && s.group.None? && forall r :: r in a <==> r in b
    ensures s.Answer(NamedRows(ColumnsOf(s.terms), a)) == s.Answer(NamedRows(ColumnsOf(s.terms), b))
  {
    var cols := ColumnsOf(s.terms);
    var both := r => TupleOf(s.terms, s.funs)(NamedBy(cols)(r));
    SameElements(both, a, b);
    TuplesOfRows(s, a, both);
    TuplesOfRows(s, b, both);
    DistinctFinish(s, s.Tuples(NamedRows(cols, a)), s.Tuples(NamedRows(cols, b)));
  }
}
