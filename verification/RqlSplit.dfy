/** `RQLRewriter.insert_local_checks`: a query whose type solutions need different checks is split into a union,
    one copy of the query for each set of checks. */
module RqlSplits {
  import opened RqlTrees
  import opened RqlSharing
  import opened RqlVisitors
  import opened RqlSnippets
  import opened RqlRewriters
  import opened RqlRewritings
  import opened RqlRows
  import opened RqlRuns
  import opened RqlSelects
  import opened Wrappers

  /** A solution of the type analysis. */
  type TypeSol = map<Var, EType>

  /** The type solutions that need the same checks. */
  datatype Group = Group(sols: set<TypeSol>, checks: seq<Check>)

  /** A query of the union. */
  datatype Branch = Branch(where: Node<Var>, vars: set<Var>, types: map<Var, set<EType>>)

  function PossibleTypes(sols: set<TypeSol>, v: Var): set<EType> {
    set s | s in sols && v in s :: s[v]
  }

  /** What `add_types_restriction` restricts the variables of a copy to. */
  function Restriction(sols: set<TypeSol>, typed: set<Var>): map<Var, set<EType>> {
    map v | v in typed :: PossibleTypes(sols, v)
  }

  /** The query to split: `typed` are the variables whose types are restricted, `setup` has the first unused name,
      `user` is the user's eid. */
  datatype Query = Query(where: Node<Var>, vars: set<Var>, typed: set<Var>, setup: Setup, user: Val, select: Select)

  function CallOf(q: Query, g: Group): Call {
    Call(q.where, q.vars, Restriction(g.sols, q.typed), q.setup, q.user, g.checks)
  }

  /** The run that made a branch, for the checks of `g`. */
  ghost predicate Made(b: Branch, run: Run, q: Query, g: Group) {
    run.call == CallOf(q, g) && Rewrote(run) && b == Branch(run.Result(), run.ResultVars(), run.call.types)
  }

  /** The rewriting stops at one of the checks of the group. */
  ghost predicate Refused(outcome: Outcome, q: Query, g: Group) {
    exists st: Stage, i: nat :: i < |g.checks| && StopsAt(outcome, st, g.checks[i], q.setup)
  }

  function BranchOf(q: Query, where: Node<Var>, added: bool, g: Group): Branch {
    Branch(where, if added then q.vars + {q.setup.u} else q.vars, Restriction(g.sols, q.typed))
  }

  lemma RunMakes(q: Query, g: Group, stages: seq<Stage>, last: Node<Var>, hi: Var, where: Node<Var>, added: bool)
    requires FollowAll(stages, g.checks, q.setup) && UserAdded(stages) == UsesUser(g.checks)
    requires Staged(stages, Rel("eid", Ref(q.setup.u), Const(q.user)), q.where, last, q.setup.u + 1, hi)
    requires where == if NoRoots(stages) then q.where else last
    requires added == (UserAdded(stages) && !NoRoots(stages))
    ensures Made(BranchOf(q, where, added, g), Run(CallOf(q, g), stages, last, hi), q, g)
  {
    hide FollowAll, Staged, NoRoots, UserAdded, UsesUser, Restriction;
  }

  /** A query that needs no check stays as it is. */
  lemma UntouchedIsMade(q: Query, g: Group)
    requires g.checks == []
    ensures Made(Branch(q.where, q.vars, Restriction(g.sols, q.typed)), Run(CallOf(q, g), [], q.where, q.setup.u + 1),
              q, g)
  {
    hide Restriction;
  }

  /** One copy of the query, rewritten in place. */
  method RewriteCopy(q: Query, g: Group, accepts: Node<Var> -> bool)
    returns (outcome: Outcome, b: Branch, ghost run: Run)
    requires forall c <- g.checks :: Named(c)
    ensures outcome == Done ==> Made(b, run, q, g)
    ensures outcome != Done ==> Refused(outcome, q, g)
  {
    var rewriter := new Rewriter(q.where, q.setup.u, q.user, q.setup.schema, accepts);
    ghost var stages, last, stuck;
    outcome, stages, last, stuck := rewriter.Rewrite(g.checks);
    run := Run(CallOf(q, g), stages, last, rewriter.next);
    b := BranchOf(q, rewriter.where, rewriter.userAdded, g);
    if outcome == Done {
      hide FollowAll, Staged, NoRoots, UserAdded, UsesUser, Made, BranchOf, Refused, StopsAt;
      RunMakes(q, g, stages, last, rewriter.next, rewriter.where, rewriter.userAdded);
    }
  }

  /** Whether the copies go into a subquery. */
  predicate Wraps(s: Select, copies: nat) {
    copies > 1 && (s.group.Some? || s.distinct || s.cut.Some?)
  }

  /** `insert_local_checks`: the solutions that need no check, if there are any, keep the query itself; the others get
      copies. The union goes into a subquery when there is more than one query to sort, group, aggregate or limit. */
  method InsertLocalChecks(q: Query, groups: seq<Group>, accepts: Node<Var> -> bool)
    returns (outcome: Outcome, union: seq<Branch>, wrapped: bool, ghost runs: seq<Run>)
    requires forall i | 0 < i < |groups| :: groups[i].checks != []
    requires forall g <- groups :: forall c <- g.checks :: Named(c)
    ensures wrapped == Wraps(q.select, |groups|)
    ensures outcome == Done ==> AllMade(union, runs, q, groups)
    ensures outcome != Done ==> exists i | 0 <= i < |groups| :: Refused(outcome, q, groups[i])
  {
    hide Made, Refused, Restriction;
    wrapped := |groups| > 1 && (q.select.group.Some? || q.select.distinct || q.select.cut.Some?);
    outcome, union, runs := Done, [], [];
    var i := 0;
    if |groups| > 0 && groups[0].checks == [] {
      union := [Branch(q.where, q.vars, Restriction(groups[0].sols, q.typed))];
      runs := [Run(CallOf(q, groups[0]), [], q.where, q.setup.u + 1)];
      UntouchedIsMade(q, groups[0]);
      assert AllMade([], [], q, groups[..0]);
      OneMoreMade([], [], q, groups, 0, union[0], runs[0]);
      i := 1;
    }
    assert AllMade(union, runs, q, groups[..i]);
    hide AllMade, CallOf;
    while i < |groups|
      invariant i <= |groups| && outcome == Done && AllMade(union, runs, q, groups[..i])
    {
      var b: Branch;
      ghost var run: Run;
      outcome, b, run := RewriteCopy(q, groups[i], accepts);
      if outcome != Done {
        return;
      }
      OneMoreMade(union, runs, q, groups, i, b, run);
      union, runs, i := union + [b], runs + [run], i + 1;
    }
    assert groups[..i] == groups;
  }

  lemma OneMoreMade(union: seq<Branch>, runs: seq<Run>, q: Query, groups: seq<Group>, i: nat, b: Branch, run: Run)
    requires i < |groups| && AllMade(union, runs, q, groups[..i]) && Made(b, run, q, groups[i])
    ensures AllMade(union + [b], runs + [run], q, groups[..i + 1])
  {
    hide Made;
    forall j | 0 <= j <= i
      ensures Made((union + [b])[j], (runs + [run])[j], q, groups[..i + 1][j])
    {
      if j < i {
        assert Made(union[j], runs[j], q, groups[..i][j]);
      }
    }
  }

  ghost predicate AllMade(union: seq<Branch>, runs: seq<Run>, q: Query, groups: seq<Group>) {
    && |union| == |groups| == |runs|
    && forall i | 0 <= i < |groups| :: Made(union[i], runs[i], q, groups[i])
  }

  // ----- types

  function TypesOf(e: Env<Var>, typed: set<Var>, db: Db): TypeSol {
    map v | v in typed :: db.typeOf(ValueOf(Ref(v), e))
  }

  /** Each solution of the type analysis is in one group at most; one that nobody may read is in none. */
  ghost predicate Analysed(q: Query, groups: seq<Group>) {
    && q.typed <= q.vars
    && (forall g <- groups :: forall s <- g.sols :: s.Keys == q.typed)
    && (forall i, j | 0 <= i < j < |groups| :: groups[i].sols !! groups[j].sols)
  }

  predicate FitsGroup(s: TypeSol, g: Group, typed: set<Var>) {
    forall v <- typed :: v in s && s[v] in PossibleTypes(g.sols, v)
  }

  lemma RestrictionFits(e: Env<Var>, g: Group, typed: set<Var>, db: Db)
    requires typed <= e.Keys
    ensures TypesFit(e, Restriction(g.sols, typed), db) <==> FitsGroup(TypesOf(e, typed, db), g, typed)
  {
  }

  lemma MemberFits(s: TypeSol, g: Group, typed: set<Var>)
    requires s.Keys == typed
    ensures s in g.sols ==> FitsGroup(s, g, typed)
  {
  }

  // ----- the solutions that the branches keep

  /** The checks of the group let the solution through. */
  ghost predicate LetThrough(e: Env<Var>, q: Query, run: Run, db: Db) {
    AllowsAll(run.stages, Plus(e, q.setup.u, q.user), db)
  }

  /** The checks of the solution's own group let it through. */
  ghost predicate Authorized(e: Env<Var>, q: Query, groups: seq<Group>, runs: seq<Run>, db: Db)
    requires |groups| == |runs|
  {
    exists i | 0 <= i < |groups| :: TypesOf(e, q.typed, db) in groups[i].sols && LetThrough(e, q, runs[i], db)
  }

  ghost function AuthorizedSolutions(q: Query, groups: seq<Group>, runs: seq<Run>, db: Db): set<Env<Var>>
    requires |groups| == |runs|
  {
    set e | e in Solutions(q.where, map[], q.vars, db) && Authorized(e, q, groups, runs, db)
  }

  ghost function OwnKept(q: Query, g: Group, run: Run, db: Db): set<Env<Var>> {
    set e | e in Solutions(q.where, map[], q.vars, db) && TypesOf(e, q.typed, db) in g.sols && LetThrough(e, q, run, db)
  }

  /** Solutions of no type solution of the group, whose types fit the group when each variable is looked at alone, and
      that the checks of the group let through. */
  ghost function Misfits(q: Query, g: Group, run: Run, db: Db): set<Env<Var>> {
    set e | && e in Solutions(q.where, map[], q.vars, db) && TypesOf(e, q.typed, db) !in g.sols
            && FitsGroup(TypesOf(e, q.typed, db), g, q.typed) && LetThrough(e, q, run, db)
  }

  lemma SolutionsOfGroup(q: Query, g: Group, db: Db, e: Env<Var>)
    requires q.typed <= q.vars && forall s <- g.sols :: s.Keys == q.typed
    ensures e in Solutions(q.where, Restriction(g.sols, q.typed), q.vars, db) <==>
              && e in Solutions(q.where, map[], q.vars, db)
              && (TypesOf(e, q.typed, db) in g.sols || FitsGroup(TypesOf(e, q.typed, db), g, q.typed))
  {
    EnvsGive(q.vars, db.dom);
    if e in Solutions(q.where, map[], q.vars, db) {
      RestrictionFits(e, g, q.typed, db);
      MemberFits(TypesOf(e, q.typed, db), g, q.typed);
      hide PossibleTypes, TypesFit, FitsGroup, Restriction;
    }
  }

  /** A branch keeps the authorized solutions of its own group, and the misfits. */
  lemma KeptSplits(q: Query, g: Group, run: Run, db: Db)
    requires q.typed <= q.vars && (forall s <- g.sols :: s.Keys == q.typed) && run.call == CallOf(q, g)
    ensures run.Kept(db) == OwnKept(q, g, run, db) + Misfits(q, g, run, db)
    ensures OwnKept(q, g, run, db) !! Misfits(q, g, run, db)
  {
    forall e
      ensures e in run.Kept(db) <==> e in OwnKept(q, g, run, db) || e in Misfits(q, g, run, db)
    {
      SolutionsOfGroup(q, g, db, e);
      hide AllowsAll, Solutions, FitsGroup;
    }
  }

  /** The solutions that the branches keep, as often as branches keep them. */
  ghost function KeptBag(runs: seq<Run>, db: Db): multiset<Env<Var>> {
    if runs == [] then multiset{} else KeptBag(runs[..|runs| - 1], db) + multiset(runs[|runs| - 1].Kept(db))
  }

  /** The misfits of all groups. */
  ghost function Extra(q: Query, groups: seq<Group>, runs: seq<Run>, db: Db): multiset<Env<Var>>
    requires |groups| == |runs|
  {
    if runs == [] then multiset{}
    else
      var n := |runs| - 1;
      Extra(q, groups[..n], runs[..n], db) + multiset(Misfits(q, groups[n], runs[n], db))
  }

  ghost predicate NoMisfit(q: Query, groups: seq<Group>, runs: seq<Run>, db: Db)
    requires |groups| == |runs|
  {
    forall k, e | 0 <= k < |groups| && e in Solutions(q.where, map[], q.vars, db) ::
      FitsGroup(TypesOf(e, q.typed, db), groups[k], q.typed) && LetThrough(e, q, runs[k], db) ==>
        TypesOf(e, q.typed, db) in groups[k].sols
  }

  lemma {:induction false} ExtraIsMisfits(q: Query, groups: seq<Group>, runs: seq<Run>, db: Db)
    requires |groups| == |runs|
    ensures Extra(q, groups, runs, db) == multiset{} <==>
              forall k | 0 <= k < |groups| :: Misfits(q, groups[k], runs[k], db) == {}
  {
    if runs != [] {
      var n := |runs| - 1;
      hide Misfits;
      ExtraIsMisfits(q, groups[..n], runs[..n], db);
      var last := Misfits(q, groups[n], runs[n], db);
      assert forall k | 0 <= k < n :: groups[..n][k] == groups[k] && runs[..n][k] == runs[k];
      BagIsEmpty(last);
      SumIsEmpty(Extra(q, groups[..n], runs[..n], db), multiset(last));
    }
  }

  lemma BagIsEmpty<T>(s: set<T>)
    ensures s == {} <==> multiset(s) == multiset{}
  {
    assert |multiset(s)| == |s|;
  }

  lemma SumIsEmpty<T>(a: multiset<T>, b: multiset<T>)
    ensures a + b == multiset{} <==> a == multiset{} && b == multiset{}
  {
    assert |a + b| == |a| + |b|;
  }

  lemma NoExtra(q: Query, groups: seq<Group>, runs: seq<Run>, db: Db)
    requires |groups| == |runs|
    ensures Extra(q, groups, runs, db) == multiset{} <==> NoMisfit(q, groups, runs, db)
  {
    ExtraIsMisfits(q, groups, runs, db);
    forall k | 0 <= k < |groups|
      ensures Misfits(q, groups[k], runs[k], db) == {} <==>
                forall e | e in Solutions(q.where, map[], q.vars, db) ::
                  FitsGroup(TypesOf(e, q.typed, db), groups[k], q.typed) && LetThrough(e, q, runs[k], db) ==>
                    TypesOf(e, q.typed, db) in groups[k].sols
    {
      assert forall e :: e in Misfits(q, groups[k], runs[k], db) <==>
        && e in Solutions(q.where, map[], q.vars, db) && TypesOf(e, q.typed, db) !in groups[k].sols
        && FitsGroup(TypesOf(e, q.typed, db), groups[k], q.typed) && LetThrough(e, q, runs[k], db);
    }
    hide Extra, Misfits, Solutions, FitsGroup, LetThrough;
  }

  lemma OneMoreGroup(q: Query, groups: seq<Group>, runs: seq<Run>, db: Db)
    requires Analysed(q, groups) && |groups| == |runs| && groups != []
    ensures var n := |runs| - 1;
            && Analysed(q, groups[..n])
            && AuthorizedSolutions(q, groups, runs, db) ==
                 AuthorizedSolutions(q, groups[..n], runs[..n], db) + OwnKept(q, groups[n], runs[n], db)
            && AuthorizedSolutions(q, groups[..n], runs[..n], db) !! OwnKept(q, groups[n], runs[n], db)
  {
    var n := |runs| - 1;
    hide FitsGroup, LetThrough, TypesOf;
    forall e | e in Solutions(q.where, map[], q.vars, db)
      ensures Authorized(e, q, groups, runs, db) <==>
                Authorized(e, q, groups[..n], runs[..n], db) || e in OwnKept(q, groups[n], runs[n], db)
    {
      if Authorized(e, q, groups[..n], runs[..n], db) {
        var i :| 0 <= i < n && TypesOf(e, q.typed, db) in groups[..n][i].sols && LetThrough(e, q, runs[..n][i], db);
        assert groups[i] == groups[..n][i] && runs[i] == runs[..n][i];
      }
      if Authorized(e, q, groups, runs, db) {
        var i :| 0 <= i < |groups| && TypesOf(e, q.typed, db) in groups[i].sols && LetThrough(e, q, runs[i], db);
        assert i < n ==> groups[i] == groups[..n][i] && runs[i] == runs[..n][i];
      }
    }
    forall e | e in AuthorizedSolutions(q, groups[..n], runs[..n], db)
      ensures TypesOf(e, q.typed, db) !in groups[n].sols
    {
      var i :| 0 <= i < n && TypesOf(e, q.typed, db) in groups[..n][i].sols && LetThrough(e, q, runs[..n][i], db);
      assert groups[i].sols !! groups[n].sols;
    }
  }

  lemma BagOfUnion<T>(a: set<T>, b: set<T>)
    requires a !! b
    ensures multiset(a + b) == multiset(a) + multiset(b)
  {
  }

  lemma Regroup<T>(a: multiset<T>, b: multiset<T>, c: multiset<T>, d: multiset<T>)
    ensures (a + b) + (c + d) == (a + c) + (b + d)
  {
  }

  /** What the branches keep together: each authorized solution once, and each misfit once more, or though it is not
      authorized. */
  lemma {:induction false} KeptIsAuthorized(q: Query, groups: seq<Group>, runs: seq<Run>, db: Db)
    requires Analysed(q, groups) && |groups| == |runs| && forall i | 0 <= i < |runs| ::
               runs[i].call == CallOf(q, groups[i])
    ensures KeptBag(runs, db) == multiset(AuthorizedSolutions(q, groups, runs, db)) + Extra(q, groups, runs, db)
  {
    if runs == [] {
      assert AuthorizedSolutions(q, groups, runs, db) == {};
    } else {
      var n := |runs| - 1;
      assert groups[n] in groups;
      OneMoreGroup(q, groups, runs, db);
      KeptSplits(q, groups[n], runs[n], db);
      KeptIsAuthorized(q, groups[..n], runs[..n], db);
      hide Analysed, AuthorizedSolutions, OwnKept, Misfits;
      var own, mis := OwnKept(q, groups[n], runs[n], db), Misfits(q, groups[n], runs[n], db);
      var before := AuthorizedSolutions(q, groups[..n], runs[..n], db);
      BagOfUnion(own, mis);
      BagOfUnion(before, own);
      Regroup(multiset(before), Extra(q, groups[..n], runs[..n], db), multiset(own), multiset(mis));
    }
  }

  /** Groups that are recovered by restricting each variable have no misfits. */
  ghost predicate Recovered(groups: seq<Group>, typed: set<Var>, sols: set<TypeSol>) {
    forall k, s | 0 <= k < |groups| && s in sols :: FitsGroup(s, groups[k], typed) ==> s in groups[k].sols
  }

  lemma RecoveredHasNoMisfit(q: Query, groups: seq<Group>, runs: seq<Run>, sols: set<TypeSol>, db: Db)
    requires |groups| == |runs| && Recovered(groups, q.typed, sols)
    requires forall e <- Solutions(q.where, map[], q.vars, db) :: TypesOf(e, q.typed, db) in sols
    ensures NoMisfit(q, groups, runs, db)
  {
    hide FitsGroup, LetThrough, Solutions;
  }

  // ----- answers

  ghost function BranchSolutions(b: Branch, db: Db): multiset<Env<Var>> {
    multiset(Solutions(b.where, b.types, b.vars, db))
  }

  /** UNION ALL of the answers of the branches to a select. */
  ghost function UnionAnswer(s: Select, union: seq<Branch>, db: Db): Rows {
    if union == [] then multiset{}
    else UnionAnswer(s, union[..|union| - 1], db) + s.Answer(BranchSolutions(union[|union| - 1], db))
  }

  /** The answer of the query that `insert_local_checks` leaves. */
  ghost function SplitAnswer(s: Select, union: seq<Branch>, wrapped: bool, db: Db): Rows {
    if wrapped then s.Answer(NamedRows(ColumnsOf(s.terms), UnionAnswer(s.Inner(), union, db)))
    else UnionAnswer(s, union, db)
  }

  /** A branch has the rows of the solutions that its run keeps. */
  ghost predicate BranchKeeps(b: Branch, run: Run, cols: seq<Var>, db: Db) {
    MapBag(RowIn(cols), BranchSolutions(b, db)) == MapBag(RowIn(cols), multiset(run.Kept(db)))
  }

  ghost predicate AllKeep(union: seq<Branch>, runs: seq<Run>, cols: seq<Var>, db: Db) {
    |union| == |runs| && forall i | 0 <= i < |union| :: BranchKeeps(union[i], runs[i], cols, db)
  }

  /** All that the rewriter needs of the query, its groups and the database before it starts. */
  ghost predicate AllPrepared(q: Query, groups: seq<Group>, db: Db) {
    && Analysed(q, groups) && (forall v <- ColumnsOf(q.select.terms) :: v in q.vars)
    && forall g <- groups :: Prepared(CallOf(q, g), db)
  }

  lemma MadeKeeps(b: Branch, run: Run, q: Query, g: Group, cols: seq<Var>, db: Db)
    requires Made(b, run, q, g) && Prepared(CallOf(q, g), db) && forall v <- cols :: v in q.vars
    ensures BranchKeeps(b, run, cols, db)
  {
    RewrittenRows(run, db, cols);
    RowsAreMapped(cols, Solutions(b.where, b.types, b.vars, db));
    RowsAreMapped(cols, run.Kept(db));
  }

  lemma AllKeepRows(q: Query, groups: seq<Group>, union: seq<Branch>, runs: seq<Run>, db: Db)
    requires AllPrepared(q, groups, db) && AllMade(union, runs, q, groups)
    ensures AllKeep(union, runs, ColumnsOf(q.select.terms), db)
  {
    forall i | 0 <= i < |union|
      ensures BranchKeeps(union[i], runs[i], ColumnsOf(q.select.terms), db)
    {
      assert groups[i] in groups;
      MadeKeeps(union[i], runs[i], q, groups[i], ColumnsOf(q.select.terms), db);
    }
  }

  lemma {:induction false} InnerRows(s: Select, union: seq<Branch>, runs: seq<Run>, db: Db)
    requires AllKeep(union, runs, ColumnsOf(s.terms), db) && !s.distinct
    ensures UnionAnswer(s.Inner(), union, db) == MapBag(RowIn(ColumnsOf(s.terms)), KeptBag(runs, db))
  {
    if union != [] {
      var n, cols := |union| - 1, ColumnsOf(s.terms);
      InnerRows(s, union[..n], runs[..n], db);
      assert BranchKeeps(union[n], runs[n], cols, db);
      InnerTuples(s, BranchSolutions(union[n], db));
      MapUnion(RowIn(cols), KeptBag(runs[..n], db), multiset(runs[n].Kept(db)));
    }
  }

  /** A branch answers as if it had the solutions that its run keeps. */
  lemma BranchAnswers(s: Select, b: Branch, run: Run, db: Db)
    requires BranchKeeps(b, run, ColumnsOf(s.terms), db)
    ensures s.Tuples(BranchSolutions(b, db)) == s.Tuples(multiset(run.Kept(db)))
  {
    OuterTuples(s, BranchSolutions(b, db));
    OuterTuples(s, multiset(run.Kept(db)));
  }

  /** Without a subquery the rows of all branches are the answer. */
  lemma {:induction false} PlainRows(s: Select, union: seq<Branch>, runs: seq<Run>, db: Db)
    requires AllKeep(union, runs, ColumnsOf(s.terms), db) && s.group.None? && !s.distinct && s.cut.None?
    ensures UnionAnswer(s, union, db) == s.Tuples(KeptBag(runs, db))
  {
    if union != [] {
      var n := |union| - 1;
      PlainRows(s, union[..n], runs[..n], db);
      BranchAnswers(s, union[n], runs[n], db);
      MapUnion(TupleOf(s.terms, s.funs), KeptBag(runs[..n], db), multiset(runs[n].Kept(db)));
    }
  }

  // ----- distinct selects

  ghost function InnerBag(cols: seq<Var>, runs: seq<Run>, db: Db): Rows {
    MapBag(RowIn(cols), KeptBag(runs, db))
  }

  /** The branch gives no row twice. */
  ghost predicate RowOnce(cols: seq<Var>, run: Run, db: Db) {
    forall r :: MapBag(RowIn(cols), multiset(run.Kept(db)))[r] <= 1
  }

  ghost predicate RowsOnce(cols: seq<Var>, runs: seq<Run>, db: Db) {
    forall i | 0 <= i < |runs| :: RowOnce(cols, runs[i], db)
  }

  lemma DistinctBranch(s: Select, b: Branch, run: Run, db: Db)
    requires BranchKeeps(b, run, ColumnsOf(s.terms), db) && s.distinct
    ensures s.Inner().Answer(BranchSolutions(b, db)) == Once(MapBag(RowIn(ColumnsOf(s.terms)), multiset(run.Kept(db))))
  {
    InnerTuples(s, BranchSolutions(b, db));
  }

  /** Each branch of a distinct select gives a row once: the subquery has the rows of all branches, but not as often. */
  lemma {:induction false} DistinctRows(s: Select, union: seq<Branch>, runs: seq<Run>, db: Db)
    requires AllKeep(union, runs, ColumnsOf(s.terms), db) && s.distinct
    ensures forall r :: UnionAnswer(s.Inner(), union, db)[r] <= InnerBag(ColumnsOf(s.terms), runs, db)[r]
    ensures forall r :: r in UnionAnswer(s.Inner(), union, db) <==> r in InnerBag(ColumnsOf(s.terms), runs, db)
  {
    if union != [] {
      var n, cols := |union| - 1, ColumnsOf(s.terms);
      DistinctRows(s, union[..n], runs[..n], db);
      assert BranchKeeps(union[n], runs[n], cols, db);
      DistinctBranch(s, union[n], runs[n], db);
      MapUnion(RowIn(cols), KeptBag(runs[..n], db), multiset(runs[n].Kept(db)));
      OnceIsLess(UnionAnswer(s.Inner(), union[..n], db), InnerBag(cols, runs[..n], db),
                 MapBag(RowIn(cols), multiset(runs[n].Kept(db))));
      hide MapBag, Once;
    }
  }

  lemma OnceIsLess(a: Rows, b: Rows, rows: Rows)
    requires forall r :: a[r] <= b[r]
    requires forall r :: r in a <==> r in b
    ensures forall r :: (a + Once(rows))[r] <= (b + rows)[r]
    ensures forall r :: r in a + Once(rows) <==> r in b + rows
  {
  }

  lemma FirstRuns(cols: seq<Var>, runs: seq<Run>, db: Db)
    requires runs != []
    ensures var n := |runs| - 1;
            RowsOnce(cols, runs, db) <==> RowsOnce(cols, runs[..n], db) && RowOnce(cols, runs[n], db)
  {
    hide RowOnce;
    var n := |runs| - 1;
    if RowsOnce(cols, runs, db) {
      assert forall i | 0 <= i < n :: RowOnce(cols, runs[i], db) && runs[..n][i] == runs[i];
    }
    if RowsOnce(cols, runs[..n], db) && RowOnce(cols, runs[n], db) {
      assert forall i | 0 <= i < n :: RowOnce(cols, runs[..n][i], db) && runs[..n][i] == runs[i];
    }
  }

  /** The subquery of a distinct select has the rows as often exactly when no branch gives a row twice. */
  lemma {:induction false} DistinctKeepsRows(s: Select, union: seq<Branch>, runs: seq<Run>, db: Db)
    requires AllKeep(union, runs, ColumnsOf(s.terms), db) && s.distinct
    ensures UnionAnswer(s.Inner(), union, db) == InnerBag(ColumnsOf(s.terms), runs, db) <==>
              RowsOnce(ColumnsOf(s.terms), runs, db)
  {
    if union != [] {
      var n, cols := |union| - 1, ColumnsOf(s.terms);
      var rows := MapBag(RowIn(cols), multiset(runs[n].Kept(db)));
      DistinctKeepsRows(s, union[..n], runs[..n], db);
      DistinctRows(s, union[..n], runs[..n], db);
      assert BranchKeeps(union[n], runs[n], cols, db);
      DistinctBranch(s, union[n], runs[n], db);
      MapUnion(RowIn(cols), KeptBag(runs[..n], db), multiset(runs[n].Kept(db)));
      FirstRuns(cols, runs, db);
      OnceIsAll(UnionAnswer(s.Inner(), union[..n], db), InnerBag(cols, runs[..n], db), rows);
      hide RowsOnce, MapBag;
    }
  }

  lemma OnceIsAll(a: Rows, b: Rows, rows: Rows)
    requires forall r :: a[r] <= b[r]
    ensures a + Once(rows) == b + rows <==> a == b && forall r :: rows[r] <= 1
  {
    if a + Once(rows) == b + rows {
      forall r
        ensures a[r] == b[r] && rows[r] <= 1
      {
        assert (a + Once(rows))[r] == (b + rows)[r];
      }
    }
  }

  // ----- the theorems

  /** What is asked of the solutions that are authorized, and of the misfits beside them. */
  ghost function Asked(q: Query, groups: seq<Group>, runs: seq<Run>, db: Db): multiset<Env<Var>>
    requires |groups| == |runs|
  {
    multiset(AuthorizedSolutions(q, groups, runs, db)) + Extra(q, groups, runs, db)
  }

  lemma WrappedAnswers(s: Select, union: seq<Branch>, runs: seq<Run>, db: Db)
    requires AllKeep(union, runs, ColumnsOf(s.terms), db) && (!s.distinct || s.group.None?)
    ensures SplitAnswer(s, union, true, db) == s.Answer(KeptBag(runs, db))
  {
    OuterTuples(s, KeptBag(runs, db));
    if s.distinct {
      DistinctRows(s, union, runs, db);
      DistinctTuples(s, UnionAnswer(s.Inner(), union, db), InnerBag(ColumnsOf(s.terms), runs, db));
    } else {
      InnerRows(s, union, runs, db);
    }
  }

  lemma PlainAnswers(s: Select, union: seq<Branch>, runs: seq<Run>, db: Db)
    requires AllKeep(union, runs, ColumnsOf(s.terms), db) && union != [] && !Wraps(s, |union|)
    ensures SplitAnswer(s, union, false, db) == s.Answer(KeptBag(runs, db))
  {
    if |union| == 1 {
      assert BranchKeeps(union[0], runs[0], ColumnsOf(s.terms), db);
      BranchAnswers(s, union[0], runs[0], db);
      assert union[..0] == [] && runs[..0] == [];
      assert KeptBag(runs, db) == KeptBag([], db) + multiset(runs[0].Kept(db)) == multiset(runs[0].Kept(db));
      assert UnionAnswer(s, union, db) == UnionAnswer(s, [], db) + s.Answer(BranchSolutions(union[0], db));
    } else {
      PlainRows(s, union, runs, db);
    }
  }

  /** Splitting a query: the answer, after groups, aggregates, sorting and limits, is the query's own answer over the
      solutions that the checks of their own group let through, and over the misfits. A distinct select must not
      aggregate. */
  lemma SplitAnswers(q: Query, groups: seq<Group>, union: seq<Branch>, runs: seq<Run>, db: Db)
    requires AllPrepared(q, groups, db) && AllMade(union, runs, q, groups) && groups != []
    requires !q.select.distinct || q.select.group.None?
    ensures SplitAnswer(q.select, union, Wraps(q.select, |groups|), db) == q.select.Answer(Asked(q, groups, runs, db))
  {
    AllKeepRows(q, groups, union, runs, db);
    KeptIsAuthorized(q, groups, runs, db);
    hide AllPrepared, AllKeep, SplitAnswer;
    if Wraps(q.select, |groups|) {
      WrappedAnswers(q.select, union, runs, db);
    } else {
      PlainAnswers(q.select, union, runs, db);
    }
  }

  /** Without misfits the answer is the query's own answer over the authorized solutions. A select that neither groups
      nor limits its rows gets that answer only without misfits. */
  lemma SplitIsRight(q: Query, groups: seq<Group>, union: seq<Branch>, runs: seq<Run>, db: Db)
    requires AllPrepared(q, groups, db) && AllMade(union, runs, q, groups) && groups != []
    requires !q.select.distinct || q.select.group.None?
    ensures var answer := SplitAnswer(q.select, union, Wraps(q.select, |groups|), db);
            var right := q.select.Answer(multiset(AuthorizedSolutions(q, groups, runs, db)));
            && (NoMisfit(q, groups, runs, db) ==> answer == right)
            && (!q.select.distinct && q.select.group.None? && q.select.cut.None? ==>
                  (answer == right <==> NoMisfit(q, groups, runs, db)))
  {
    SplitAnswers(q, groups, union, runs, db);
    NoExtra(q, groups, runs, db);
    hide AllPrepared, AllMade, AuthorizedSolutions, Extra, SplitAnswer, NoMisfit;
    var authorized := multiset(AuthorizedSolutions(q, groups, runs, db));
    assert authorized + multiset{} == authorized;
    assert |Asked(q, groups, runs, db)| == |authorized| + |Extra(q, groups, runs, db)|;
  }

  /** A distinct select that aggregates: the answer is right when no branch gives a row twice. */
  lemma DistinctAggregates(q: Query, groups: seq<Group>, union: seq<Branch>, runs: seq<Run>, db: Db)
    requires AllPrepared(q, groups, db) && AllMade(union, runs, q, groups) && |groups| > 1
    requires q.select.distinct && RowsOnce(ColumnsOf(q.select.terms), runs, db)
    ensures SplitAnswer(q.select, union, true, db) == q.select.Answer(Asked(q, groups, runs, db))
  {
    AllKeepRows(q, groups, union, runs, db);
    KeptIsAuthorized(q, groups, runs, db);
    DistinctKeepsRows(q.select, union, runs, db);
    OuterTuples(q.select, KeptBag(runs, db));
    hide AllPrepared, AllMade, AllKeep, RowsOnce;
  }

  /** COUNT of the rows, for all of them together. */
  function CountRows(): Rows -> Rows {
    t => multiset{[|t|]}
  }

  /** With COUNT it is right only then. */
  lemma DistinctCount(q: Query, groups: seq<Group>, union: seq<Branch>, runs: seq<Run>, db: Db)
    requires AllPrepared(q, groups, db) && AllMade(union, runs, q, groups) && |groups| > 1
    requires q.select.distinct && q.select.group == Some(CountRows()) && q.select.cut.None?
    ensures SplitAnswer(q.select, union, true, db) == q.select.Answer(Asked(q, groups, runs, db)) <==>
            RowsOnce(ColumnsOf(q.select.terms), runs, db)
  {
    var s, cols := q.select, ColumnsOf(q.select.terms);
    AllKeepRows(q, groups, union, runs, db);
    KeptIsAuthorized(q, groups, runs, db);
    DistinctKeepsRows(s, union, runs, db);
    DistinctRows(s, union, runs, db);
    hide AllPrepared, AllMade, AllKeep, RowsOnce, MapBag, AuthorizedSolutions, Extra;
    var inner, all := UnionAnswer(s.Inner(), union, db), InnerBag(cols, runs, db);
    FewerWhenLess(inner, all);
    CountsAll(s, NamedRows(cols, inner));
    CountsAll(s, KeptBag(runs, db));
  }

  lemma CountsAll(s: Select, solutions: multiset<Env<Var>>)
    requires s.distinct && s.group == Some(CountRows()) && s.cut.None?
    ensures s.Answer(solutions) == multiset{[|solutions|]}
  {
    assert CountRows()(s.Tuples(solutions)) == multiset{[|solutions|]};
    assert Once(multiset{[|solutions|]}) == multiset{[|solutions|]};
  }
}
