/** `RQLRewriter.insert_varmap_snippets`: the snippets of one variable are inserted in the query in place, the first
    one as a condition more, the others as alternatives to it; one that the type resolver rejects is taken out again. */
module RqlRewriters {
  import opened RqlTrees
  import opened RqlSharing
  import opened RqlVisitors
  import opened RqlVisits
  import opened RqlSnippets
  import opened RqlIndexes
  import opened Wrappers

  /** `need_exists` */
  predicate NeedExists<V>(n: Node<V>) {
    match n
    case Exists(_) => false
    case Not(_) => false
    case Or(l, r) => NeedExists(l) || NeedExists(r)
    case And(l, r) => NeedExists(l) || NeedExists(r)
    case Rel(_, _, _) => true
  }

  /** `_inserted_root` */
  function InsertedRoot<V>(m: Node<V>): Node<V> {
    if NeedExists(m) then Exists(m) else m
  }

  // ----- a place in a tree

  datatype Dir = Left | Right
  type Path = seq<Dir>

  predicate HasPath<V>(n: Node<V>, p: Path)
    decreases |p|
  {
    p == [] || ((n.And? || n.Or?) && HasPath(if p[0] == Left then n.l else n.r, p[1..]))
  }

  function At<V>(n: Node<V>, p: Path): Node<V>
    requires HasPath(n, p)
    decreases |p|
  {
    if p == [] then n else At(if p[0] == Left then n.l else n.r, p[1..])
  }

  /** `parent.replace(old, new)` */
  function ReplaceAt<V>(n: Node<V>, p: Path, m: Node<V>): Node<V>
    requires HasPath(n, p)
    decreases |p|
  {
    if p == [] then m
    else if p[0] == Left then n.(l := ReplaceAt(n.l, p[1..], m))
    else n.(r := ReplaceAt(n.r, p[1..], m))
  }

  /** Replacing twice is replacing once; putting back what was there changes nothing. */
  lemma {:induction false} ReplaceBack<V>(n: Node<V>, p: Path, m: Node<V>)
    requires HasPath(n, p)
    ensures HasPath(ReplaceAt(n, p, m), p) && At(ReplaceAt(n, p, m), p) == m
    ensures ReplaceAt(ReplaceAt(n, p, m), p, At(n, p)) == n
    decreases |p|
  {
    if p != [] {
      ReplaceBack(if p[0] == Left then n.l else n.r, p[1..], m);
    }
  }

  // ----- the shape of a query with alternatives inserted

  function Lefts(k: nat): Path {
    if k == 0 then [] else [Left] + Lefts(k - 1)
  }

  /** Alternatives `rest` to `first`: each one is inserted right beside `first`. */
  function Chain<V>(first: Node<V>, rest: seq<Node<V>>): Node<V> {
    if rest == [] then first else Or(Chain(first, rest[1..]), rest[0])
  }

  lemma {:induction false} ChainGrows<V>(first: Node<V>, rest: seq<Node<V>>, m: Node<V>)
    ensures HasPath(Chain(first, rest), Lefts(|rest|)) && At(Chain(first, rest), Lefts(|rest|)) == first
    ensures ReplaceAt(Chain(first, rest), Lefts(|rest|), Or(first, m)) == Chain(first, rest + [m])
    ensures Lefts(|rest|) + [Left] == Lefts(|rest| + 1)
  {
    if rest == [] {
    } else {
      ChainGrows(first, rest[1..], m);
      assert (rest + [m])[1..] == rest[1..] + [m];
      assert Lefts(|rest|)[1..] == Lefts(|rest[1..]|);
    }
  }

  /** When the condition on the user's variable came in, if it did. */
  datatype When = Never | Before | After

  function Guard<V>(w: Node<V>, user: Node<V>, yes: bool): Node<V> {
    if yes then And(w, user) else w
  }

  /** The query `w` with `roots` inserted as alternatives. */
  function Shape<V>(w: Node<V>, user: Node<V>, roots: seq<Node<V>>, when: When): Node<V> {
    if roots == [] then Guard(w, user, when != Never)
    else Guard(And(Guard(w, user, when == Before), Chain(roots[0], roots[1..])), user, when == After)
  }

  /** Where the first alternative is. */
  function FirstPath(count: nat, when: When): Path
    requires count > 0
  {
    (if when == After then [Left, Right] else [Right]) + Lefts(count - 1)
  }

  lemma PathThrough<V>(n: Node<V>, p: Path, q: Path, m: Node<V>)
    requires HasPath(n, p) && HasPath(At(n, p), q)
    ensures HasPath(n, p + q) && At(n, p + q) == At(At(n, p), q)
    ensures ReplaceAt(n, p + q, m) == ReplaceAt(n, p, ReplaceAt(At(n, p), q, m))
    decreases |p|
  {
    if p == [] {
      assert p + q == q;
    } else {
      PathThrough(if p[0] == Left then n.l else n.r, p[1..], q, m);
      assert (p + q)[1..] == p[1..] + q;
    }
  }

  lemma AlternativesAt<V>(w: Node<V>, user: Node<V>, check: Node<V>, check': Node<V>, before: bool, after: bool)
    ensures var p := if after then [Left, Right] else [Right];
            var n := Guard(And(Guard(w, user, before), check), user, after);
            && HasPath(n, p) && At(n, p) == check
            && ReplaceAt(n, p, check') == Guard(And(Guard(w, user, before), check'), user, after)
  {
    assert [Left, Right][1..] == [Right] && [Right][1..] == [];
  }

  lemma ShapeGrows<V>(w: Node<V>, user: Node<V>, roots: seq<Node<V>>, when: When, m: Node<V>)
    requires roots != []
    ensures HasPath(Shape(w, user, roots, when), FirstPath(|roots|, when))
    ensures At(Shape(w, user, roots, when), FirstPath(|roots|, when)) == roots[0]
    ensures ReplaceAt(Shape(w, user, roots, when), FirstPath(|roots|, when), Or(roots[0], m))
              == Shape(w, user, roots + [m], when)
    ensures FirstPath(|roots|, when) + [Left] == FirstPath(|roots + [m]|, when)
  {
    var p := if when == After then [Left, Right] else [Right];
    ChainGrows(roots[0], roots[1..], m);
    assert roots[1..] + [m] == (roots + [m])[1..];
    AlternativesAt(w, user, Chain(roots[0], roots[1..]), Chain(roots[0], roots[1..] + [m]), when == Before,
        when == After);
    PathThrough(Shape(w, user, roots, when), p, Lefts(|roots| - 1), Or(roots[0], m));
    hide HasPath, At, ReplaceAt, Chain, Lefts, Guard;
  }

  /** The user's condition comes in on top. */
  lemma ShapeWithUser<V>(w: Node<V>, user: Node<V>, roots: seq<Node<V>>)
    ensures And(Shape(w, user, roots, Never), user) == Shape(w, user, roots, if roots == [] then Before else After)
    ensures roots != [] ==> [Left] + FirstPath(|roots|, Never) == FirstPath(|roots|, After)
  {
    assert [Left] + [Right] == [Left, Right];
  }

  lemma ShapeStarts<V>(w: Node<V>, user: Node<V>, when: When, m: Node<V>)
    requires when != After
    ensures And(Shape(w, user, [], when), m) == Shape(w, user, [m], when)
    ensures FirstPath(1, when) == [Right]
  {
  }

  // ----- the rewriter

  datatype Verdict = Accepted | Collapsed | Rejected

  /** What happened to a snippet: the first name it could use, and its verdict. */
  datatype Entry = Entry(snip: Node<SnipVar>, start: Var, verdict: Verdict)

  datatype Outcome = Done | Unauthorized | AttributeError

  function Root(e: Entry, ctx: Ctx): Node<Var>
    requires Inserted(e.snip, ctx, e.start).Some?
  {
    InsertedRoot(Inserted(e.snip, ctx, e.start).value)
  }

  predicate Told(e: Entry, ctx: Ctx) {
    e.verdict == Collapsed <==> Inserted(e.snip, ctx, e.start).None?
  }

  /** One entry for each of the first snippets. */
  predicate LogOf(log: seq<Entry>, exprs: seq<Node<SnipVar>>, ctx: Ctx) {
    |log| <= |exprs| && forall i | 0 <= i < |log| :: log[i].snip == exprs[i] && Told(log[i], ctx)
  }

  /** What was inserted and left in. */
  function Roots(log: seq<Entry>, ctx: Ctx): seq<Node<Var>>
    requires forall e <- log :: Told(e, ctx)
  {
    if log == [] then []
    else
      var e := log[|log| - 1];
      assert e in log && Told(e, ctx);
      Roots(log[..|log| - 1], ctx) + if e.verdict == Accepted then [Root(e, ctx)] else []
  }

  lemma RootsOfMore(log: seq<Entry>, e: Entry, ctx: Ctx)
    requires (forall d <- log :: Told(d, ctx)) && Told(e, ctx)
    ensures forall d <- log + [e] :: Told(d, ctx)
    ensures Roots(log + [e], ctx) == Roots(log, ctx) + if e.verdict == Accepted then [Root(e, ctx)] else []
  {
    assert (log + [e])[..|log|] == log;
  }

  /** Snippets take new names one after the other, from `lo` to `hi`. */
  predicate InOrder(log: seq<Entry>, ctx: Ctx, lo: Var, hi: Var) {
    if log == [] then lo <= hi
    else
      var e := log[|log| - 1];
      e.start <= hi && StateAfter(e.snip, ctx, e.start).next <= hi && InOrder(log[..|log| - 1], ctx, lo, e.start)
  }

  /** What is to be checked: the query's terms for the variables of the snippets, and the snippets of which one must
      hold. */
  datatype Check = Check(mapped: seq<Mapping>, exprs: seq<Node<SnipVar>>)

  /** What a rewriter knows beside the query: the name of the user's variable, and the schema. */
  datatype Setup = Setup(u: Var, schema: Schema)

  /** `assert snippetvar in 'SOX'` */
  predicate Named(c: Check) {
    forall m <- c.mapped :: m.snip in ["S", "O", "X"]
  }

  ghost predicate Indexes(ctx: Ctx, c: Check, setup: Setup, where: Node<Var>) {
    && ctx.revvarmap == Revvarmap(c.mapped) && ctx.user == Ref(setup.u) && ctx.schema == setup.schema
    && IndexOf(ctx.varinfos, c.mapped, where)
  }

  /** The insertion of one list of alternatives: the query before it, its index, what happened to the snippets. */
  datatype Stage = Stage(tree: Node<Var>, ctx: Ctx, log: seq<Entry>, when: When, start: Var)

  ghost predicate Follows(st: Stage, c: Check, setup: Setup) {
    && Indexes(st.ctx, c, setup, st.tree) && |st.log| == |c.exprs| && LogOf(st.log, c.exprs, st.ctx)
    && exists e <- st.log :: e.verdict != Rejected
  }

  /** The stages lead from the query `first` to `last`. */
  ghost predicate Staged(stages: seq<Stage>, user: Node<Var>, first: Node<Var>, last: Node<Var>, lo: Var, hi: Var) {
    if stages == [] then first == last && lo == hi
    else
      var st := stages[|stages| - 1];
      && (forall e <- st.log :: Told(e, st.ctx))
      && InOrder(st.log, st.ctx, st.start, hi)
      && last == Shape(st.tree, user, Roots(st.log, st.ctx), st.when)
      && Staged(stages[..|stages| - 1], user, first, st.tree, lo, st.start)
  }

  ghost predicate NoRoots(stages: seq<Stage>) {
    forall st <- stages :: forall e <- st.log :: e.verdict != Accepted
  }

  ghost predicate UserAdded(stages: seq<Stage>) {
    exists st <- stages :: st.when != Never
  }

  ghost predicate UsesUser(checks: seq<Check>) {
    exists i | 0 <= i < |checks| :: exists e <- checks[i].exprs :: "U" in Vars(e)
  }

  /** Why the rewriting stops at a check: every snippet is rejected, or one shares a constant. */
  ghost predicate StopsAt(outcome: Outcome, st: Stage, c: Check, setup: Setup) {
    && Indexes(st.ctx, c, setup, st.tree) && LogOf(st.log, c.exprs, st.ctx)
    && (outcome == Unauthorized ==> |st.log| == |c.exprs| && forall e <- st.log :: e.verdict == Rejected)
    && (outcome == AttributeError ==> exists e <- c.exprs :: SharesConstant(e, false, st.ctx))
  }

  ghost predicate FollowAll(stages: seq<Stage>, checks: seq<Check>, setup: Setup) {
    |stages| == |checks| && forall i | 0 <= i < |stages| :: Follows(stages[i], checks[i], setup)
  }

  lemma OneMore(stages: seq<Stage>, checks: seq<Check>, i: nat, st: Stage, setup: Setup)
    requires i < |checks| && FollowAll(stages, checks[..i], setup) && Follows(st, checks[i], setup)
    ensures FollowAll(stages + [st], checks[..i + 1], setup)
  {
    hide Follows;
    forall j | 0 <= j < |stages + [st]|
      ensures Follows((stages + [st])[j], checks[..i + 1][j], setup)
    {
      if j < i {
        assert Follows(stages[j], checks[..i][j], setup);
      }
    }
  }

  lemma OneMoreUser(checks: seq<Check>, i: nat)
    requires i < |checks|
    ensures UsesUser(checks[..i + 1]) <==> UsesUser(checks[..i]) || exists e <- checks[i].exprs :: "U" in Vars(e)
  {
    var more := checks[..i + 1];
    assert more[i] == checks[i] && forall j | 0 <= j < i :: more[j] == checks[..i][j];
    hide Vars;
  }

  lemma {:induction false} NoRootsWhenNoneAccepted(log: seq<Entry>, ctx: Ctx)
    requires forall e <- log :: Told(e, ctx)
    ensures Roots(log, ctx) == [] <==> forall e <- log :: e.verdict != Accepted
  {
    if log != [] {
      NoRootsWhenNoneAccepted(log[..|log| - 1], ctx);
      assert forall e :: e in log <==> e in log[..|log| - 1] || e == log[|log| - 1];
    }
  }

  lemma StageAdded(stages: seq<Stage>, st: Stage)
    requires forall e <- st.log :: Told(e, st.ctx)
    ensures (stages + [st])[..|stages|] == stages && (stages + [st])[|stages|] == st
    ensures NoRoots(stages + [st]) <==> NoRoots(stages) && Roots(st.log, st.ctx) == []
    ensures UserAdded(stages + [st]) <==> UserAdded(stages) || st.when != Never
  {
    NoRootsWhenNoneAccepted(st.log, st.ctx);
    assert forall d :: d in stages + [st] <==> d in stages || d == st;
  }

  lemma OneMoreEntry(log: seq<Entry>, entry: Entry, exprs: seq<Node<SnipVar>>, ctx: Ctx)
    requires LogOf(log, exprs, ctx) && |log| < |exprs| && entry.snip == exprs[|log|] && Told(entry, ctx)
    ensures LogOf(log + [entry], exprs, ctx)
    ensures (exists e <- log + [entry] :: e.verdict != Rejected) <==>
            (exists e <- log :: e.verdict != Rejected) || entry.verdict != Rejected
  {
    assert forall e :: e in log + [entry] <==> e in log || e == entry;
    hide Told;
  }

  lemma UsersAreMet(exprs: seq<Node<SnipVar>>, ctx: Ctx)
    requires "U" !in ctx.revvarmap && forall e <- exprs :: !SharesConstant(e, false, ctx)
    ensures (exists j | 0 <= j < |exprs| :: MeetsUser(exprs[j], false, ctx)) <==> exists e <- exprs :: "U" in Vars(e)
  {
    forall j | 0 <= j < |exprs|
      ensures MeetsUser(exprs[j], false, ctx) <==> "U" in Vars(exprs[j])
    {
      UserIsMet(exprs[j], false, ctx);
    }
    if e :| e in exprs && "U" in Vars(e) {
      var j :| 0 <= j < |exprs| && exprs[j] == e;
      assert MeetsUser(exprs[j], false, ctx);
    }
    if j :| 0 <= j < |exprs| && MeetsUser(exprs[j], false, ctx) {
      assert exprs[j] in exprs;
    }
  }

  class Rewriter {
    var where: Node<Var>
    var next: Var
    var userAdded: bool
    const setup: Setup
    const user: Val
    /** The type resolver: every solution of the query keeps its types. */
    const accepts: Node<Var> -> bool

    constructor (where: Node<Var>, next: Var, user: Val, schema: Schema, accepts: Node<Var> -> bool)
      ensures this.where == where && !this.userAdded && this.accepts == accepts && this.user == user
      ensures this.setup == Setup(next, schema) && this.next == next + 1
    {
      this.where, this.next, this.userAdded := where, next + 1, false;
      this.setup, this.user, this.accepts := Setup(next, schema), user, accepts;
    }

    /** The condition "U eid %(u)s". */
    function UserRel(): Node<Var> {
      Rel("eid", Ref(setup.u), Const(user))
    }

    /** `_insert_snippet`: the tree with `new` in it, or the tree as it was. */
    method Insert(new_: Node<Var>, previous: Option<Path>) returns (ok: bool)
      requires previous.Some? ==> HasPath(where, previous.value)
      modifies `where
      ensures ok ==> where == match previous
                              case None => And(old(where), new_)
                              case Some(p) => ReplaceAt(old(where), p, Or(At(old(where), p), new_))
      ensures ok == accepts(match previous
                            case None => And(old(where), new_)
                            case Some(p) => ReplaceAt(old(where), p, Or(At(old(where), p), new_)))
      ensures !ok ==> where == old(where)
    {
      match previous {
        case None =>
          where := And(where, new_);
          ok := accepts(where);
          if !ok {
            where := where.l;
          }
        case Some(p) =>
          var prev := At(where, p);
          ReplaceBack(where, p, Or(prev, new_));
          where := ReplaceAt(where, p, Or(prev, new_));
          ok := accepts(where);
          if !ok {
            where := ReplaceAt(where, p, prev);
          }
      }
    }

    /** `_get_varname_or_term`: the first use of "U" adds its condition to the query. */
    method NeedUser(met: bool, previous: Option<Path>) returns (previous': Option<Path>)
      modifies `where, `userAdded
      ensures userAdded == (old(userAdded) || met)
      ensures where == Guard(old(where), UserRel(), userAdded && !old(userAdded))
      ensures previous' ==
                if userAdded && !old(userAdded) && previous.Some? then Some([Left] + previous.value) else previous
    {
      previous' := previous;
      if met && !userAdded {
        where := And(where, UserRel());
        userAdded := true;
        if previous.Some? {
          previous' := Some([Left] + previous.value);
        }
      }
    }

    /** One turn of the loop of `insert_varmap_snippets`, for a snippet that the visitor can build. */
    method InsertSnippet(e: Node<SnipVar>, ctx: Ctx, previous: Option<Path>, ghost w: Node<Var>,
                         ghost roots: seq<Node<Var>>, ghost when: When)
      returns (entry: Entry, previous': Option<Path>, ghost when': When)
      requires where == Shape(w, UserRel(), roots, when) && (when == After ==> roots != [])
      requires previous == if roots == [] then None else Some(FirstPath(|roots|, when))
      requires when != Never ==> userAdded
      modifies this
      ensures entry.snip == e && entry.start == old(next) && Told(entry, ctx)
      ensures var roots' := roots + if entry.verdict == Accepted then [Root(entry, ctx)] else [];
              && where == Shape(w, UserRel(), roots', when') && (when' == After ==> roots' != [])
              && previous' == if roots' == [] then None else Some(FirstPath(|roots'|, when'))
      ensures next == StateAfter(e, ctx, old(next)).next
      ensures userAdded == (old(userAdded) || MeetsUser(e, false, ctx))
      ensures when' == if userAdded == old(userAdded) then when else if roots == [] then Before else After
    {
      var (built, fin) := Visit(e, false, Start(next), ctx);
      entry := Entry(e, next, Collapsed);
      next := fin.next;
      ShapeWithUser(w, UserRel(), roots);
      previous' := NeedUser(MeetsUser(e, false, ctx), previous);
      when' := if userAdded == old(userAdded) then when else if roots == [] then Before else After;
      assert where == Shape(w, UserRel(), roots, when') && roots + [] == roots;
      if built.Some? {
        var root := InsertedRoot(SubstNode(built.value, fin.subst));
        if roots == [] {
          ShapeStarts(w, UserRel(), when', root);
        } else {
          ShapeGrows(w, UserRel(), roots, when', root);
        }
        var ok := Insert(root, previous');
        entry := entry.(verdict := if ok then Accepted else Rejected);
        if ok {
          previous' := if previous'.None? then Some([Right]) else Some(previous'.value + [Left]);
        }
      }
    }

    /** The entries so far have made the query `w` what it is now; the first alternative is at `previous`. */
    ghost predicate Inserting(w: Node<Var>, added: bool, lo: Var, log: seq<Entry>, ctx: Ctx, when: When,
                              previous: Option<Path>)
      reads this
    {
      && (forall e <- log :: Told(e, ctx))
      && where == Shape(w, UserRel(), Roots(log, ctx), when)
      && userAdded == (added || when != Never) && (added ==> when == Never)
      && (when == After ==> Roots(log, ctx) != [])
      && previous == (if Roots(log, ctx) == [] then None else Some(FirstPath(|Roots(log, ctx)|, when)))
      && InOrder(log, ctx, lo, next)
    }

    method AddSnippet(e: Node<SnipVar>, ctx: Ctx, previous: Option<Path>, ghost w: Node<Var>, ghost added: bool,
                      ghost lo: Var, ghost log: seq<Entry>, ghost when: When)
      returns (entry: Entry, previous': Option<Path>, ghost when': When)
      requires Inserting(w, added, lo, log, ctx, when, previous)
      modifies this
      ensures entry.snip == e && Told(entry, ctx) && Inserting(w, added, lo, log + [entry], ctx, when', previous')
      ensures userAdded == (old(userAdded) || MeetsUser(e, false, ctx))
    {
      entry, previous', when' := InsertSnippet(e, ctx, previous, w, Roots(log, ctx), when);
      RootsOfMore(log, entry, ctx);
      NamesGrow(e, false, Start(entry.start), ctx);
      assert (log + [entry])[..|log|] == log;
    }

    /** A snippet whose visit fails may have added the condition on the user before. */
    method FailSnippet(e: Node<SnipVar>, ctx: Ctx, previous: Option<Path>, ghost w: Node<Var>, ghost added: bool,
                       ghost lo: Var, ghost log: seq<Entry>, ghost when: When)
      returns (previous': Option<Path>, ghost when': When)
      requires Inserting(w, added, lo, log, ctx, when, previous)
      modifies `where, `userAdded
      ensures Inserting(w, added, lo, log, ctx, when', previous')
      ensures userAdded == (old(userAdded) || MeetsUser(e, false, ctx))
    {
      ShapeWithUser(w, UserRel(), Roots(log, ctx));
      previous' := NeedUser(MeetsUser(e, false, ctx), previous);
      when' := if userAdded == old(userAdded) then when else if Roots(log, ctx) == [] then Before else After;
    }

    /** `insert_varmap_snippets` */
    method InsertVarmapSnippets(ctx: Ctx, exprs: seq<Node<SnipVar>>)
      returns (outcome: Outcome, log: seq<Entry>, ghost when: When)
      modifies this
      ensures LogOf(log, exprs, ctx) && (outcome != AttributeError ==> |log| == |exprs|)
      ensures outcome == AttributeError <==> exists e <- exprs :: SharesConstant(e, false, ctx)
      ensures outcome == Unauthorized ==> forall e <- log :: e.verdict == Rejected
      ensures outcome == Done ==> exists e <- log :: e.verdict != Rejected
      ensures where == Shape(old(where), UserRel(), Roots(log, ctx), when)
      ensures userAdded == (old(userAdded) || when != Never) && (old(userAdded) ==> when == Never)
      ensures userAdded == (old(userAdded) || exists j | 0 <= j < |exprs| && j <= |log| ::
                MeetsUser(exprs[j], false, ctx))
      ensures InOrder(log, ctx, old(next), next)
    {
      hide MeetsUser, SharesConstant, Visit, Told;
      when, log := Never, [];
      var previous: Option<Path> := None;
      var inserted := false;
      for i := 0 to |exprs|
        invariant |log| == i && LogOf(log, exprs, ctx)
        invariant forall j | 0 <= j < i :: !SharesConstant(exprs[j], false, ctx)
        invariant inserted <==> exists e <- log :: e.verdict != Rejected
        invariant Inserting(old(where), old(userAdded), old(next), log, ctx, when, previous)
        invariant userAdded == (old(userAdded) || exists j | 0 <= j < i :: MeetsUser(exprs[j], false, ctx))
      {
        hide Inserting, InOrder, Shape;
        FailsOnConstants(exprs[i], false, Start(next), ctx);
        if SharesConstant(exprs[i], false, ctx) {
          previous, when := FailSnippet(exprs[i], ctx, previous, old(where), old(userAdded), old(next), log, when);
          break;
        }
        var entry: Entry;
        entry, previous, when := AddSnippet(exprs[i], ctx, previous, old(where), old(userAdded), old(next), log, when);
        OneMoreEntry(log, entry, exprs, ctx);
        hide LogOf;
        inserted := inserted || entry.verdict != Rejected;
        log := log + [entry];
      }
      outcome := if |log| < |exprs| then AttributeError else if inserted then Done else Unauthorized;
    }

    /** The stages so far have made the query `first` what it is now. */
    ghost predicate MadeBy(stages: seq<Stage>, first: Node<Var>, lo: Var, some: bool)
      reads this
    {
      && Staged(stages, UserRel(), first, where, lo, next)
      && userAdded == UserAdded(stages) && some == !NoRoots(stages)
      && (!some ==> where == Guard(first, UserRel(), userAdded))
    }

    method Index(c: Check) returns (ctx: Ctx)
      requires Named(c)
      ensures Indexes(ctx, c, setup, where) && "U" !in ctx.revvarmap
    {
      var revvarmap, varinfos := InitFromVarmap(c.mapped, where);
      ctx := Ctx(revvarmap, Ref(setup.u), varinfos, setup.schema);
    }

    method InsertCheck(c: Check, some: bool, ghost stages: seq<Stage>, ghost first: Node<Var>, ghost lo: Var)
      returns (outcome: Outcome, some': bool, ghost st: Stage)
      requires MadeBy(stages, first, lo, some) && Named(c)
      modifies this
      ensures outcome == Done ==> MadeBy(stages + [st], first, lo, some') && Follows(st, c, setup)
      ensures outcome == Done ==> userAdded == (old(userAdded) || exists e <- c.exprs :: "U" in Vars(e))
      ensures outcome != Done ==> StopsAt(outcome, st, c, setup)
    {
      var ctx := Index(c);
      hide Indexes;
      ghost var tree, start := where, next;
      var log: seq<Entry>;
      ghost var when;
      outcome, log, when := InsertVarmapSnippets(ctx, c.exprs);
      some' := some || Roots(log, ctx) != [];
      st := Stage(tree, ctx, log, when, start);
      StageAdded(stages, st);
      if outcome == Done {
        UsersAreMet(c.exprs, ctx);
      }
      hide MeetsUser, SharesConstant, InOrder, Shape, LogOf, NoRoots, UserAdded;
    }

    /** Every check, one list of alternatives after the other. */
    method InsertChecks(checks: seq<Check>)
      returns (outcome: Outcome, some: bool, ghost stages: seq<Stage>, ghost stuck: seq<Stage>)
      requires !userAdded && forall c <- checks :: Named(c)
      modifies this
      ensures outcome == Done ==>
                && MadeBy(stages, old(where), old(next), some) && FollowAll(stages, checks, setup)
                    && userAdded == UsesUser(checks)
      ensures outcome != Done ==>
                |stages| < |checks| && |stuck| == 1 && StopsAt(outcome, stuck[0], checks[|stages|], setup)
    {
      outcome, stages, some, stuck := Done, [], false, [];
      for i := 0 to |checks|
        invariant outcome == Done && |stages| == i
        invariant MadeBy(stages, old(where), old(next), some) && FollowAll(stages, checks[..i], setup)
        invariant userAdded == UsesUser(checks[..i])
      {
        ghost var st;
        outcome, some, st := InsertCheck(checks[i], some, stages, old(where), old(next));
        if outcome != Done {
          stuck := [st];
          return;
        }
        OneMore(stages, checks, i, st, setup);
        OneMoreUser(checks, i);
        stages := stages + [st];
      }
      assert checks[..|checks|] == checks;
    }

    /** The part of `rewrite` that inserts. The user's condition goes again when nothing was inserted. */
    method Rewrite(checks: seq<Check>)
      returns (outcome: Outcome, ghost stages: seq<Stage>, ghost last: Node<Var>, ghost stuck: seq<Stage>)
      requires !userAdded && forall c <- checks :: Named(c)
      modifies this
      ensures outcome == Done ==>
                FollowAll(stages, checks, setup) && Staged(stages, UserRel(), old(where), last, old(next), next)
      ensures outcome == Done ==> where == if NoRoots(stages) then old(where) else last
      ensures outcome == Done ==>
                userAdded == (UserAdded(stages) && !NoRoots(stages)) && UserAdded(stages) == UsesUser(checks)
      ensures outcome != Done ==>
                |stages| < |checks| && |stuck| == 1 && StopsAt(outcome, stuck[0], checks[|stages|], setup)
    {
      var some;
      hide FollowAll, Staged, UsesUser, NoRoots, UserAdded, StopsAt;
      outcome, some, stages, stuck := InsertChecks(checks);
      last := where;
      if outcome == Done && !some && userAdded {
        where, userAdded := where.l, false;
      }
    }
  }
}
