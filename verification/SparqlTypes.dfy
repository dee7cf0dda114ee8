/** `QueryInfo.infer_types`: the types of the variables of a SPARQL query, by repeated narrowing. */
module SparqlTypes {
  import opened Wrappers

  type Var = string
  type EType = string

  /** The type that a predicate leaves open. */
  const ANY: EType := "*"

  /** A candidate for a SPARQL predicate: subject type, relation type, object type. */
  datatype Pred = Pred(s: EType, r: string, o: EType)

  function End(p: Pred, isObject: bool): EType {
    if isObject then p.o else p.s
  }

  datatype Obj = Variable(name: Var) | Literal(value: string)

  /** The variables that a predicate links. */
  datatype Link = Link(subj: Var, obj: Obj)

  datatype TypeError = NoPossibleType | NoPredicate

  type Types = map<Var, set<EType>>

  /** Whether a variable may have a type. */
  type Allowed = (Var, EType) -> bool

  function Filter(ps: seq<Pred>, keep: Pred -> bool): (qs: seq<Pred>)
    ensures |qs| <= |ps| && (|qs| == |ps| ==> qs == ps)
  {
    if ps == [] then []
    else (if keep(ps[0]) then [ps[0]] else []) + Filter(ps[1..], keep)
  }

  lemma {:induction false} FilterKeeps(ps: seq<Pred>, keep: Pred -> bool)
    ensures forall p :: p in Filter(ps, keep) <==> p in ps && keep(p)
  {
    if ps != [] {
      FilterKeeps(ps[1..], keep);
      assert ps == [ps[0]] + ps[1..];
    }
  }

  lemma {:induction false} FilterSame(ps: seq<Pred>, k1: Pred -> bool, k2: Pred -> bool)
    requires forall p <- ps :: k1(p) == k2(p)
    ensures Filter(ps, k1) == Filter(ps, k2)
  {
    if ps != [] {
      assert ps[0] in ps;
      FilterSame(ps[1..], k1, k2);
    }
  }

  lemma {:induction false} FilterTwice(ps: seq<Pred>, k1: Pred -> bool, k2: Pred -> bool)
    ensures Filter(Filter(ps, k1), k2) == Filter(ps, p => k1(p) && k2(p))
  {
    if ps != [] {
      FilterTwice(ps[1..], k1, k2);
      var rest := Filter(ps[1..], k1);
      assert ([ps[0]] + rest)[1..] == rest;
      assert [] + rest == rest;
    }
  }

  /** `qs` are some of `ps`, in the same order. */
  ghost predicate SomeOf(qs: seq<Pred>, ps: seq<Pred>) {
    qs == Filter(ps, p => p in qs)
  }

  lemma FilterIsSomeOf(ps: seq<Pred>, keep: Pred -> bool)
    ensures SomeOf(Filter(ps, keep), ps)
  {
    FilterKeeps(ps, keep);
    FilterSame(ps, keep, p => p in Filter(ps, keep));
  }

  lemma SomeOfLength(qs: seq<Pred>, ps: seq<Pred>)
    requires SomeOf(qs, ps)
    ensures |qs| <= |ps| && (|qs| == |ps| ==> qs == ps)
  {
  }

  lemma SameEntry(before: seq<seq<Pred>>, after: seq<seq<Pred>>, i: nat)
    requires i < |before| == |after| && after == before[i := after[i]]
    ensures after == before <==> after[i] == before[i]
  {
  }

  lemma SomeOfItself(ps: seq<Pred>)
    ensures SomeOf(ps, ps)
  {
    FilterAll(ps);
    FilterIsSomeOf(ps, _ => true);
  }

  lemma {:induction false} FilterAll(ps: seq<Pred>)
    ensures Filter(ps, _ => true) == ps
  {
    if ps != [] {
      FilterAll(ps[1..]);
    }
  }

  lemma SomeOfSome(rs: seq<Pred>, qs: seq<Pred>, ps: seq<Pred>)
    requires SomeOf(rs, qs) && SomeOf(qs, ps)
    ensures SomeOf(rs, ps)
  {
    FilterTwice(ps, p => p in qs, p => p in rs);
    FilterKeeps(qs, p => p in rs);
    FilterSame(ps, p => (p => p in qs)(p) && (p => p in rs)(p), p => p in rs);
  }

  predicate Fits(t: EType, types: Types, v: Var) {
    t == ANY || v !in types || t in types[v]
  }

  // ----- what the result should be

  /** A narrowing: the types left to each variable, and the candidates left to each predicate. */
  ghost predicate Consistent(a: Allowed, q: seq<set<Pred>>, links: seq<Link>) {
    |q| == |links| && forall i | 0 <= i < |links| :: Agrees(a, q[i], links[i])
  }

  ghost predicate Agrees(a: Allowed, ps: set<Pred>, l: Link) {
    AgreesAt(a, ps, l.subj, false) && (l.obj.Variable? ==> AgreesAt(a, ps, l.obj.name, true))
  }

  /** The candidates are those that the variable allows, and each type left is allowed by a candidate. */
  ghost predicate AgreesAt(a: Allowed, ps: set<Pred>, v: Var, isObject: bool) {
    && (forall p <- ps :: End(p, isObject) == ANY || a(v, End(p, isObject)))
    && (forall t :: a(v, t) ==> exists p :: p in ps && (End(p, isObject) == ANY || End(p, isObject) == t))
  }

  /** The narrowing that the two structures hold. */
  ghost function TypesOf(types: Types): Allowed {
    (v, t) => v in types ==> t in types[v]
  }

  ghost function CandidatesOf(preds: seq<seq<Pred>>): (q: seq<set<Pred>>)
    ensures |q| == |preds|
  {
    seq(|preds|, i requires 0 <= i < |preds| => set p | p in preds[i])
  }

  /** The narrowing `a`, `q` leaves no more than `types` and `preds` do. */
  ghost predicate Below(a: Allowed, q: seq<set<Pred>>, types: Types, preds: seq<seq<Pred>>) {
    && |q| == |preds|
    && (forall v, t :: v in types && a(v, t) ==> t in types[v])
    && (forall i | 0 <= i < |q| :: forall p <- q[i] :: p in preds[i])
  }

  /** Every consistent narrowing of the first state is one of the second. */
  ghost predicate LosesNothing(types0: Types, preds0: seq<seq<Pred>>, types: Types, preds: seq<seq<Pred>>,
                               links: seq<Link>) {
    forall a: Allowed, q: seq<set<Pred>> ::
      Consistent(a, q, links) && Below(a, q, types0, preds0) ==> Below(a, q, types, preds)
  }

  /** A narrowing that leaves no type to some variable, or no candidate to some predicate. */
  ghost predicate EmptySomewhere(a: Allowed, q: seq<set<Pred>>) {
    (exists v :: NoType(a, v)) || {} in q
  }

  ghost predicate NoType(a: Allowed, v: Var) {
    forall t :: !a(v, t)
  }

  /** A solution gives each variable a type and each predicate one candidate. */
  ghost predicate Solution(tau: Var -> EType, choice: seq<Pred>, types: Types, preds: seq<seq<Pred>>,
                           links: seq<Link>) {
    && |choice| == |preds| == |links|
    && (forall v <- types :: tau(v) in types[v])
    && forall i | 0 <= i < |links| ::
         && choice[i] in preds[i]
         && (choice[i].s == ANY || choice[i].s == tau(links[i].subj))
         && (links[i].obj.Variable? ==> choice[i].o == ANY || choice[i].o == tau(links[i].obj.name))
  }

  /** A solution is a consistent narrowing, so whatever loses no narrowing loses no solution. */
  lemma SolutionSurvives(tau: Var -> EType, choice: seq<Pred>, types0: Types, preds0: seq<seq<Pred>>,
                         types: Types, preds: seq<seq<Pred>>, links: seq<Link>)
    requires |preds| == |preds0| && LosesNothing(types0, preds0, types, preds, links)
    requires Solution(tau, choice, types0, preds0, links)
    ensures Solution(tau, choice, types, preds, links)
  {
    var a: Allowed := (v, t) => t == tau(v);
    var q := seq(|choice|, i requires 0 <= i < |choice| => {choice[i]});
    SolutionIsNarrowing(tau, choice, types0, preds0, links, a, q);
    forall i | 0 <= i < |links|
      ensures choice[i] in preds[i]
    {
      assert choice[i] in q[i];
    }
    forall v | v in types
      ensures tau(v) in types[v]
    {
      assert a(v, tau(v));
    }
  }

  lemma SolutionIsNarrowing(tau: Var -> EType, choice: seq<Pred>, types: Types, preds: seq<seq<Pred>>, links: seq<Link>,
                            a: Allowed, q: seq<set<Pred>>)
    requires Solution(tau, choice, types, preds, links)
    requires |q| == |choice| && (forall i | 0 <= i < |q| :: q[i] == {choice[i]}) && forall v, t ::
               a(v, t) == (t == tau(v))
    ensures Consistent(a, q, links) && Below(a, q, types, preds) && !EmptySomewhere(a, q)
  {
    forall i | 0 <= i < |links|
      ensures Agrees(a, q[i], links[i])
    {
      assert choice[i] in q[i];
    }
    forall v
      ensures !NoType(a, v)
    {
      assert a(v, tau(v));
    }
    forall i | 0 <= i < |q|
      ensures q[i] != {}
    {
      assert choice[i] in q[i];
    }
  }

  // ----- the termination measure

  ghost function LinkVars(links: seq<Link>): set<Var> {
    (set l | l in links :: l.subj) + (set l | l in links && l.obj.Variable? :: l.obj.name)
  }

  /** The variables that have no set of types yet. */
  ghost function Unset(types: Types, links: seq<Link>): set<Var> {
    LinkVars(links) - types.Keys
  }

  ghost function TypePairs(types: Types): set<(Var, EType)> {
    set v, t | v in types && t in types[v] :: (v, t)
  }

  ghost function Total(preds: seq<seq<Pred>>): nat {
    if preds == [] then 0 else |preds[0]| + Total(preds[1..])
  }

  /** Narrowing, without ever giving back what was taken. */
  ghost predicate Narrower(types: Types, preds: seq<seq<Pred>>, types0: Types, preds0: seq<seq<Pred>>,
                           links: seq<Link>) {
    && types0.Keys <= types.Keys <= types0.Keys + LinkVars(links)
    && (forall v <- types0 :: types[v] <= types0[v])
    && |preds| == |preds0|
    && forall i | 0 <= i < |preds| :: SomeOf(preds[i], preds0[i])
  }

  lemma {:induction false} TotalShrinks(ps: seq<seq<Pred>>, qs: seq<seq<Pred>>)
    requires |ps| == |qs| && forall i | 0 <= i < |ps| :: |ps[i]| <= |qs[i]| && (|ps[i]| == |qs[i]| ==> ps[i] == qs[i])
    ensures Total(ps) <= Total(qs) && (Total(ps) == Total(qs) ==> ps == qs)
  {
    if ps != [] {
      TotalShrinks(ps[1..], qs[1..]);
      assert ps == [ps[0]] + ps[1..] && qs == [qs[0]] + qs[1..];
    }
  }

  /** A pass that narrows something decreases the measure. */
  lemma MeasureDecreases(types: Types, preds: seq<seq<Pred>>, types0: Types, preds0: seq<seq<Pred>>, links: seq<Link>)
    requires Narrower(types, preds, types0, preds0, links) && (types, preds) != (types0, preds0)
    ensures || Unset(types, links) < Unset(types0, links)
            || (Unset(types, links) == Unset(types0, links) && TypePairs(types) < TypePairs(types0))
            || (Unset(types, links) == Unset(types0, links) && TypePairs(types) == TypePairs(types0)
                && Total(preds) < Total(preds0))
  {
    TotalShrinks(preds, preds0);
    if Unset(types, links) == Unset(types0, links) {
      forall v | v in types
        ensures v in types0
      {
        assert v !in types0 ==> v in Unset(types0, links);
      }
      assert types.Keys == types0.Keys;
      forall p | p in TypePairs(types)
        ensures p in TypePairs(types0)
      {
      }
      if TypePairs(types) == TypePairs(types0) {
        forall v | v in types
          ensures types[v] == types0[v]
        {
          forall t | t in types0[v]
            ensures t in types[v]
          {
            assert (v, t) in TypePairs(types0);
          }
        }
        assert types == types0;
      }
    } else {
      assert Unset(types, links) <= Unset(types0, links);
    }
  }

  // ----- the steps

  ghost function Candidates(ps: seq<Pred>): set<Pred> {
    set p | p in ps
  }

  function Ends(ps: seq<Pred>, isObject: bool): set<EType> {
    set p | p in ps :: End(p, isObject)
  }

  predicate LinkHas(l: Link, v: Var, isObject: bool) {
    if isObject then l.obj == Variable(v) else l.subj == v
  }

  /** Restricting a variable to the types that the candidates allow loses nothing. */
  lemma RestrictLosesNothing(types: Types, preds: seq<seq<Pred>>, links: seq<Link>, i: nat, v: Var, isObject: bool,
                             types': Types)
    requires i < |links| == |preds| && LinkHas(links[i], v, isObject)
    requires ANY !in Ends(preds[i], isObject)
    requires types' == types[v := if v in types then types[v] * Ends(preds[i], isObject) else Ends(preds[i], isObject)]
    ensures LosesNothing(types, preds, types', preds, links)
  {
    forall a: Allowed, q: seq<set<Pred>> | Consistent(a, q, links) && Below(a, q, types, preds)
      ensures Below(a, q, types', preds)
    {
      assert Agrees(a, q[i], links[i]);
      forall t | a(v, t)
        ensures t in types'[v]
      {
        var p :| p in q[i] && (End(p, isObject) == ANY || End(p, isObject) == t);
        assert p in preds[i];
        assert End(p, isObject) in Ends(preds[i], isObject);
      }
    }
  }

  /** Dropping the candidates that a variable does not allow loses nothing. */
  lemma FilterLosesNothing(types: Types, preds: seq<seq<Pred>>, links: seq<Link>, i: nat, v: Var, isObject: bool,
                           ps: seq<Pred>)
    requires i < |links| == |preds| && LinkHas(links[i], v, isObject)
    requires forall p :: p in ps <==> p in preds[i] && Fits(End(p, isObject), types, v)
    ensures LosesNothing(types, preds, types, preds[i := ps], links)
  {
    forall a: Allowed, q: seq<set<Pred>> | Consistent(a, q, links) && Below(a, q, types, preds)
      ensures Below(a, q, types, preds[i := ps])
    {
      assert Agrees(a, q[i], links[i]);
    }
  }

  lemma LosesNothingThrough(types0: Types, preds0: seq<seq<Pred>>, types1: Types, preds1: seq<seq<Pred>>,
                            types2: Types, preds2: seq<seq<Pred>>, links: seq<Link>)
    requires LosesNothing(types0, preds0, types1, preds1, links) && LosesNothing(types1, preds1, types2, preds2, links)
    ensures LosesNothing(types0, preds0, types2, preds2, links)
  {
  }

  lemma NothingLost(types: Types, preds: seq<seq<Pred>>, links: seq<Link>)
    ensures LosesNothing(types, preds, types, preds, links)
  {
  }

  lemma NarrowerThrough(types2: Types, preds2: seq<seq<Pred>>, types1: Types, preds1: seq<seq<Pred>>,
                        types0: Types, preds0: seq<seq<Pred>>, links: seq<Link>)
    requires Narrower(types2, preds2, types1, preds1, links) && Narrower(types1, preds1, types0, preds0, links)
    ensures Narrower(types2, preds2, types0, preds0, links)
  {
    forall i | 0 <= i < |preds2|
      ensures SomeOf(preds2[i], preds0[i])
    {
      SomeOfSome(preds2[i], preds1[i], preds0[i]);
    }
  }

  lemma NarrowerItself(types: Types, preds: seq<seq<Pred>>, links: seq<Link>)
    ensures Narrower(types, preds, types, preds, links)
  {
    forall i | 0 <= i < |preds|
      ensures SomeOf(preds[i], preds[i])
    {
      SomeOfItself(preds[i]);
    }
  }

  /** What is narrowed is never what it was before. */
  lemma NeverBack(types2: Types, preds2: seq<seq<Pred>>, types1: Types, preds1: seq<seq<Pred>>,
                  types0: Types, preds0: seq<seq<Pred>>, links: seq<Link>)
    requires Narrower(types2, preds2, types1, preds1, links) && Narrower(types1, preds1, types0, preds0, links)
    ensures (types2, preds2) == (types0, preds0) ==> (types1, preds1) == (types0, preds0)
  {
    if (types2, preds2) == (types0, preds0) {
      assert preds1 == preds0;
      forall v | v in types1
        ensures v in types0 && types1[v] == types0[v]
      {
        assert v in types2;
      }
      assert types1 == types0;
    }
  }

  /** An end whose variable and candidates restrict each other no further. */
  lemma EndAgrees(types: Types, ps: seq<Pred>, v: Var, isObject: bool)
    requires forall p <- ps :: Fits(End(p, isObject), types, v)
    ensures ANY in Ends(ps, isObject) || (v in types && types[v] <= Ends(ps, isObject)) ==>
              AgreesAt(TypesOf(types), Candidates(ps), v, isObject)
  {
    if ANY in Ends(ps, isObject) || (v in types && types[v] <= Ends(ps, isObject)) {
      var a := TypesOf(types);
      forall t | a(v, t)
        ensures exists p :: p in Candidates(ps) && (End(p, isObject) == ANY || End(p, isObject) == t)
      {
        var e := if ANY in Ends(ps, isObject) then ANY else t;
        assert e in Ends(ps, isObject);
        var p :| p in ps && End(p, isObject) == e;
        assert p in Candidates(ps);
      }
    }
  }

  /** No variable and no predicate was left without a choice. */
  predicate NonEmpty(types: Types, preds: seq<seq<Pred>>) {
    (forall v <- types :: types[v] != {}) && [] !in preds
  }

  // ----- what the inference decides

  /** The inference raises exactly when the greatest consistent narrowing is empty somewhere:
      a state without a choice left has only such narrowings above it ... */
  lemma EmptyStateMeansEmptyNarrowing(types0: Types, preds0: seq<seq<Pred>>, types: Types, preds: seq<seq<Pred>>,
                                      links: seq<Link>, a: Allowed, q: seq<set<Pred>>)
    requires LosesNothing(types0, preds0, types, preds, links) && !NonEmpty(types, preds)
    requires Consistent(a, q, links) && Below(a, q, types0, preds0)
    ensures EmptySomewhere(a, q)
  {
    if v :| v in types && types[v] == {} {
      assert NoType(a, v);
    } else {
      var i :| 0 <= i < |preds| && preds[i] == [];
      assert q[i] == {};
    }
  }

  /** ... and a state with a choice everywhere is no such narrowing. */
  lemma NonEmptyStateIsNonEmptyNarrowing(types: Types, preds: seq<seq<Pred>>, someType: EType)
    requires NonEmpty(types, preds)
    ensures !EmptySomewhere(TypesOf(types), CandidatesOf(preds))
  {
    forall v
      ensures !NoType(TypesOf(types), v)
    {
      var t := if v in types then (var t :| t in types[v]; t) else someType;
      assert TypesOf(types)(v, t);
    }
    forall i | 0 <= i < |preds|
      ensures CandidatesOf(preds)[i] != {}
    {
      assert preds[i] in preds;
      assert preds[i][0] in CandidatesOf(preds)[i];
    }
  }

  /** An exception means that the query has no solution. */
  lemma NoSolutionWhenEmpty(types0: Types, preds0: seq<seq<Pred>>, types: Types, preds: seq<seq<Pred>>,
                            links: seq<Link>, tau: Var -> EType, choice: seq<Pred>)
    requires |preds| == |preds0| && LosesNothing(types0, preds0, types, preds, links) && !NonEmpty(types, preds)
    ensures !Solution(tau, choice, types0, preds0, links)
  {
    if Solution(tau, choice, types0, preds0, links) {
      SolutionSurvives(tau, choice, types0, preds0, types, preds, links);
    }
  }

  /** The order of the links does not matter: the results of two runs over the same links in different orders
      are the same, link by link and variable by variable. */
  lemma LinkOrderDoesNotMatter(types0: Types, preds0: seq<seq<Pred>>, links: seq<Link>, perm: seq<nat>, back: seq<nat>,
                               types1: Types, preds1: seq<seq<Pred>>, types2: Types, preds2: seq<seq<Pred>>)
    requires |perm| == |back| == |links| == |preds0| == |preds1| == |preds2|
    requires forall i | 0 <= i < |links| :: perm[i] < |links| && back[i] < |links| && perm[back[i]] == i
               && back[perm[i]] == i
    requires var links2 := seq(|links|, i requires 0 <= i < |links| => links[perm[i]]);
             var preds20 := seq(|links|, i requires 0 <= i < |links| => preds0[perm[i]]);
             && LosesNothing(types0, preds20, types2, preds2, links2)
             && Consistent(TypesOf(types2), CandidatesOf(preds2), links2)
             && Below(TypesOf(types2), CandidatesOf(preds2), types0, preds20)
    requires LosesNothing(types0, preds0, types1, preds1, links)
    requires Consistent(TypesOf(types1), CandidatesOf(preds1), links)
    requires Below(TypesOf(types1), CandidatesOf(preds1), types0, preds0)
    ensures forall v, t :: TypesOf(types1)(v, t) <==> TypesOf(types2)(v, t)
    ensures forall i | 0 <= i < |links| :: Candidates(preds2[i]) == Candidates(preds1[perm[i]])
  {
    var n := |links|;
    var links2 := seq(n, i requires 0 <= i < n => links[perm[i]]);
    var preds20 := seq(n, i requires 0 <= i < n => preds0[perm[i]]);
    var q1, q2 := CandidatesOf(preds1), CandidatesOf(preds2);
    var q1' := seq(n, i requires 0 <= i < n => q1[perm[i]]);
    var q2' := seq(n, i requires 0 <= i < n => q2[back[i]]);
    assert Consistent(TypesOf(types1), q1', links2) && Below(TypesOf(types1), q1', types0, preds20);
    assert Consistent(TypesOf(types2), q2', links) && Below(TypesOf(types2), q2', types0, preds0);
    assert Below(TypesOf(types1), q1', types2, preds2) && Below(TypesOf(types2), q2', types1, preds1);
    forall i | 0 <= i < n
      ensures Candidates(preds2[i]) == Candidates(preds1[perm[i]])
    {
      assert q1'[i] == q1[perm[i]] && q2'[perm[i]] == q2[i];
    }
  }

  class QueryInfo {
    const links: seq<Link>
    var possibleTypes: Types
    var preds: seq<seq<Pred>>

    ghost predicate Valid()
      reads this
    {
      |preds| == |links|
    }

    constructor (links: seq<Link>, possibleTypes: Types, preds: seq<seq<Pred>>)
      requires |preds| == |links|
      ensures Valid() && this.links == links && this.possibleTypes == possibleTypes && this.preds == preds
    {
      this.links, this.possibleTypes, this.preds := links, possibleTypes, preds;
    }

    /** `set_possible_types`. */
    method SetPossibleTypes(v: Var, types: set<EType>) returns (r: Result<bool, TypeError>)
      modifies `possibleTypes
      ensures possibleTypes == old(possibleTypes)[v := if v in old(possibleTypes) then old(possibleTypes)[v] * types
                else types]
      ensures r.Failure? <==> v in old(possibleTypes) && possibleTypes[v] == {}
      ensures r.Success? ==> (r.value <==> possibleTypes != old(possibleTypes))
    {
      if v in possibleTypes {
        var nbctypes := |possibleTypes[v]|;
        possibleTypes := possibleTypes[v := possibleTypes[v] * types];
        if possibleTypes[v] == {} {
          return Failure(NoPossibleType);
        }
        SubsetSize(possibleTypes[v], old(possibleTypes)[v]);
        r := Success(|possibleTypes[v]| != nbctypes);
        assert !r.value ==> possibleTypes == old(possibleTypes);
      } else {
        possibleTypes := possibleTypes[v := types];
        r := Success(true);
      }
    }

    /** One end of a link: the variable is restricted by the candidates, then the candidates by the variable. */
    method NarrowEnd(i: nat, v: Var, isObject: bool) returns (r: Result<bool, TypeError>)
      requires Valid() && i < |links| && LinkHas(links[i], v, isObject)
      modifies this
      ensures Valid() && Narrower(possibleTypes, preds, old(possibleTypes), old(preds), links)
      ensures LosesNothing(old(possibleTypes), old(preds), possibleTypes, preds, links)
      ensures preds == old(preds)[i := preds[i]]
      ensures r.Success? ==> (r.value <==> possibleTypes != old(possibleTypes))
      ensures r.Failure? ==> exists v <- possibleTypes :: possibleTypes[v] == {}
      ensures r.Success? && old(NonEmpty(possibleTypes, preds)) ==> forall v <- possibleTypes :: possibleTypes[v] != {}
      ensures r.Success? && possibleTypes == old(possibleTypes) && preds == old(preds) ==>
                AgreesAt(TypesOf(possibleTypes), Candidates(preds[i]), v, isObject)
    {
      hide LosesNothing, SomeOf, Filter, AgreesAt;
      NarrowerItself(possibleTypes, preds, links);
      NothingLost(possibleTypes, preds, links);
      r := Success(false);
      var ends := Ends(preds[i], isObject);
      assert preds[i] in preds;
      assert preds[i] != [] ==> End(preds[i][0], isObject) in ends;
      if ANY !in ends {
        r := SetPossibleTypes(v, ends);
        RestrictLosesNothing(old(possibleTypes), preds, links, i, v, isObject, possibleTypes);
        if r.Failure? {
          return;
        }
      }
      FilterCandidates(i, v, isObject);
      LosesNothingThrough(old(possibleTypes), old(preds), possibleTypes, old(preds), possibleTypes, preds, links);
      EndAgrees(possibleTypes, preds[i], v, isObject);
    }

    /** `yams_predicates[:] = [...]` for one end of a link. */
    method FilterCandidates(i: nat, v: Var, isObject: bool)
      requires Valid() && i < |links| && LinkHas(links[i], v, isObject)
      modifies `preds
      ensures Valid() && preds == old(preds)[i := preds[i]] && SomeOf(preds[i], old(preds)[i])
      ensures LosesNothing(possibleTypes, old(preds), possibleTypes, preds, links)
      ensures forall p :: p in preds[i] <==> p in old(preds)[i] && Fits(End(p, isObject), possibleTypes, v)
    {
      var known := possibleTypes;
      var keep: Pred -> bool := p => Fits(End(p, isObject), known, v);
      FilterKeeps(preds[i], keep);
      FilterIsSomeOf(preds[i], keep);
      FilterLosesNothing(known, preds, links, i, v, isObject, Filter(preds[i], keep));
      if v in possibleTypes {
        preds := preds[i := Filter(preds[i], keep)];
      } else {
        SomeOfItself(preds[i]);
        NothingLost(known, preds, links);
      }
    }

    /** The body of the loop over the links. */
    method NarrowLink(i: nat) returns (r: Result<bool, TypeError>)
      requires Valid() && i < |links|
      modifies this
      ensures Valid() && Narrower(possibleTypes, preds, old(possibleTypes), old(preds), links)
      ensures LosesNothing(old(possibleTypes), old(preds), possibleTypes, preds, links)
      ensures r.Success? ==> (r.value <==> (possibleTypes, preds) != old((possibleTypes, preds)))
      ensures r.Success? && old(NonEmpty(possibleTypes, preds)) ==> NonEmpty(possibleTypes, preds)
      ensures r.Failure? ==> !NonEmpty(possibleTypes, preds)
      ensures r.Success? && !r.value ==> Agrees(TypesOf(possibleTypes), Candidates(preds[i]), links[i])
    {
      hide AgreesAt, LosesNothing, SomeOf;
      ghost var types0, preds0 := possibleTypes, preds;
      var nbchoices := |preds[i]|;
      var subject := NarrowEnd(i, links[i].subj, false);
      if subject.Failure? {
        return subject;
      }
      var modified := subject.value;
      ghost var types1, preds1 := possibleTypes, preds;
      SomeOfItself(preds[i]);
      if links[i].obj.Variable? {
        var object_ := NarrowEnd(i, links[i].obj.name, true);
        LosesNothingThrough(types0, preds0, types1, preds1, possibleTypes, preds, links);
        NarrowerThrough(possibleTypes, preds, types1, preds1, types0, preds0, links);
        if object_.Failure? {
          return object_;
        }
        NeverBack(possibleTypes, preds, types1, preds1, types0, preds0, links);
        modified := modified || object_.value;
      }
      SomeOfLength(preds1[i], preds0[i]);
      SomeOfLength(preds[i], preds1[i]);
      if preds[i] == [] {
        return Failure(NoPredicate);
      }
      if |preds[i]| != nbchoices {
        modified := true;
      }
      assert preds == preds0[i := preds[i]];
      SameEntry(preds0, preds, i);
      r := Success(modified);
    }

    /** One pass over all links. */
    method NarrowAll() returns (r: Result<bool, TypeError>)
      requires Valid()
      modifies this
      ensures Valid() && Narrower(possibleTypes, preds, old(possibleTypes), old(preds), links)
      ensures LosesNothing(old(possibleTypes), old(preds), possibleTypes, preds, links)
      ensures r.Success? && old(NonEmpty(possibleTypes, preds)) ==> NonEmpty(possibleTypes, preds)
      ensures r.Failure? ==> !NonEmpty(possibleTypes, preds)
      ensures r.Success? ==> (r.value <==> (possibleTypes, preds) != old((possibleTypes, preds)))
      ensures r.Success? && !r.value ==> Consistent(TypesOf(possibleTypes), CandidatesOf(preds), links)
    {
      hide LosesNothing, Agrees, SomeOf;
      var modified := false;
      NarrowerItself(possibleTypes, preds, links);
      NothingLost(possibleTypes, preds, links);
      for i := 0 to |links|
        invariant Valid() && Narrower(possibleTypes, preds, old(possibleTypes), old(preds), links)
        invariant LosesNothing(old(possibleTypes), old(preds), possibleTypes, preds, links)
        invariant old(NonEmpty(possibleTypes, preds)) ==> NonEmpty(possibleTypes, preds)
        invariant modified <==> (possibleTypes, preds) != old((possibleTypes, preds))
        invariant !modified ==> forall j | 0 <= j < i :: Agrees(TypesOf(possibleTypes), Candidates(preds[j]), links[j])
      {
        ghost var types1, preds1 := possibleTypes, preds;
        var narrowed := NarrowLink(i);
        LosesNothingThrough(old(possibleTypes), old(preds), types1, preds1, possibleTypes, preds, links);
        NarrowerThrough(possibleTypes, preds, types1, preds1, old(possibleTypes), old(preds), links);
        if narrowed.Failure? {
          return narrowed;
        }
        if narrowed.value {
          NeverBack(possibleTypes, preds, types1, preds1, old(possibleTypes), old(preds), links);
          modified := true;
        }
      }
      r := Success(modified);
    }

    /** `infer_types`: the loop ends, with the greatest consistent narrowing, and raises only when that is empty. */
    method InferTypes() returns (r: Option<TypeError>)
      requires Valid()
      modifies this
      ensures Valid() && Narrower(possibleTypes, preds, old(possibleTypes), old(preds), links)
      ensures LosesNothing(old(possibleTypes), old(preds), possibleTypes, preds, links)
      ensures r == None ==> Consistent(TypesOf(possibleTypes), CandidatesOf(preds), links)
      ensures r == None && old(NonEmpty(possibleTypes, preds)) ==> NonEmpty(possibleTypes, preds)
      ensures r != None ==> !NonEmpty(possibleTypes, preds)
    {
      hide LosesNothing, Consistent, NonEmpty, TypePairs, Total, Unset, SomeOf;
      NothingLost(possibleTypes, preds, links);
      NarrowerItself(possibleTypes, preds, links);
      var modified := true;
      while modified
        invariant Valid() && Narrower(possibleTypes, preds, old(possibleTypes), old(preds), links)
        invariant LosesNothing(old(possibleTypes), old(preds), possibleTypes, preds, links)
        invariant old(NonEmpty(possibleTypes, preds)) ==> NonEmpty(possibleTypes, preds)
        invariant !modified ==> Consistent(TypesOf(possibleTypes), CandidatesOf(preds), links)
        decreases Unset(possibleTypes, links), TypePairs(possibleTypes), Total(preds), modified
      {
        ghost var types0, preds0 := possibleTypes, preds;
        var pass := NarrowAll();
        NarrowerThrough(possibleTypes, preds, types0, preds0, old(possibleTypes), old(preds), links);
        LosesNothingThrough(old(possibleTypes), old(preds), types0, preds0, possibleTypes, preds, links);
        if pass.Failure? {
          return Some(pass.error);
        }
        modified := pass.value;
        if modified {
          MeasureDecreases(possibleTypes, preds, types0, preds0, links);
        }
      }
      return None;
    }
  }

  lemma SubsetSize<T>(a: set<T>, b: set<T>)
    requires a <= b
    ensures |a| == |b| ==> a == b
  {
    if x :| x in b && x !in a {
      SubsetCard(a, b - {x});
    }
  }

  lemma {:induction false} SubsetCard<T>(a: set<T>, b: set<T>)
    requires a <= b
    ensures |a| <= |b|
  {
    if x :| x in a {
      SubsetCard(a - {x}, b - {x});
    }
  }
}
