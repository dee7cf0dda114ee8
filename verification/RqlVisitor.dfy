/** The visitor of `RQLRewriter`: it rebuilds a snippet over the variables of the query, and leaves out the
    relations for which a relation of the query may stand. */
module RqlVisitors {
  import opened RqlTrees
  import opened RqlSharing
  import opened Wrappers

  // ----- what the rewriter knows about the query

  /** A relation of the query: whether its scope is the statement, and whether a `Not` is right above. */
  datatype OrigRel = OrigRel(node: Node<Var>, inScope: bool, neged: bool)

  /** One entry of the variable map: the term of the query, its possible types, and the relations it is in. */
  datatype VarInfo = VarInfo(
    term: Term<Var>,
    possibleTypes: set<EType>,
    lhsRels: map<string, seq<OrigRel>>,
    rhsRels: map<string, seq<OrigRel>>)

  /** Target types, and cardinalities: '1', '?', '+' or '*' on the subject and on the object side. */
  datatype Schema = Schema(
    objects: (string, EType) -> set<EType>,
    subjects: (string, EType) -> set<EType>,
    cardinality: (string, EType, EType) -> (char, char))

  datatype Side = AsSubject | AsObject

  datatype Ctx = Ctx(revvarmap: map<SnipVar, Term<Var>>, user: Term<Var>, varinfos: seq<VarInfo>, schema: Schema)
  {
    /** The snippet variables that stand for something of the query from the start. */
    function Fixed(): map<SnipVar, Term<Var>> {
      revvarmap["U" := user]
    }
  }

  predicate Many(c: char) {
    c in "+*"
  }

  /** `_has_multiple_cardinality`, towards objects. */
  predicate MultipleObjects(r: string, etypes: set<EType>, s: Schema) {
    exists e <- etypes :: exists t <- s.objects(r, e) :: Many(s.cardinality(r, e, t).0)
  }

  /** `_has_multiple_cardinality`, towards subjects. */
  predicate MultipleSubjects(r: string, etypes: set<EType>, s: Schema) {
    exists e <- etypes :: exists t <- s.subjects(r, e) :: Many(s.cardinality(r, t, e).1)
  }

  predicate Usable(o: OrigRel) {
    o.inScope && !o.neged
  }

  /** `_compatible_relation`: the first one of the statement's scope that is not negated. */
  function CompatibleRelation(rels: seq<OrigRel>): (r: Option<OrigRel>)
    ensures r.Some? ==> exists i | 0 <= i < |rels| ::
              rels[i] == r.value && Usable(rels[i]) && forall j | 0 <= j < i :: !Usable(rels[j])
    ensures r.None? ==> forall o <- rels :: !Usable(o)
  {
    if rels == [] then None
    else if Usable(rels[0]) then Some(rels[0])
    else CompatibleRelation(rels[1..])
  }

  function RelsFor(target: Side, vi: VarInfo): map<string, seq<OrigRel>> {
    if target == AsObject then vi.lhsRels else vi.rhsRels
  }

  /** The entry has a relation that may be used for one of type `r`. */
  predicate Serves(r: string, target: Side, vi: VarInfo, s: Schema) {
    && r in RelsFor(target, vi)
    && !(if target == AsObject then MultipleObjects(r, vi.possibleTypes, s)
        else MultipleSubjects(r, vi.possibleTypes, s))
    && CompatibleRelation(RelsFor(target, vi)[r]).Some?
  }

  /** `_may_be_shared_with`: a relation of the query, and the entry that it was found under. */
  function MayBeSharedWith(r: string, target: Side, vis: seq<VarInfo>, s: Schema): Option<(VarInfo, Node<Var>)> {
    if vis == [] then None
    else if Serves(r, target, vis[0], s) then Some((vis[0], CompatibleRelation(RelsFor(target, vis[0])[r]).value.node))
    else MayBeSharedWith(r, target, vis[1..], s)
  }

  /** What a relation that need not be inserted tells: the query's term for the snippet's variable `y`, the mapped
      variable `x` it is linked to, the relation used, the mapped term it was found for and that term's types. */
  datatype Share = Share(x: SnipVar, y: SnipVar, target: Side, about: Term<Var>, types: set<EType>, orel: Node<Var>)
  {
    function Term(): Term<Var>
      requires orel.Rel?
    {
      if target == AsObject then orel.o else orel.s
    }
  }

  /** The decision of `visit_relation`. */
  function ShareOf(n: Node<SnipVar>, neged: bool, ctx: Ctx): (sh: Option<Share>)
    ensures sh.Some? ==> n.Rel?
  {
    if !n.Rel? || neged || !n.s.Ref? || !n.o.Ref? then None
    else if n.s.v in ctx.revvarmap && n.o.v != "U" then
      match MayBeSharedWith(n.rtype, AsObject, ctx.varinfos, ctx.schema)
      case None => None
      case Some((vi, orel)) => if orel.Rel? then Some(Share(n.s.v, n.o.v, AsObject, vi.term, vi.possibleTypes, orel))
          else None
    else if n.o.v in ctx.revvarmap && n.s.v != "U" then
      match MayBeSharedWith(n.rtype, AsSubject, ctx.varinfos, ctx.schema)
      case None => None
      case Some((vi, orel)) => if orel.Rel? then Some(Share(n.o.v, n.s.v, AsSubject, vi.term, vi.possibleTypes, orel))
          else None
    else None
  }

  // ----- the state of the visitor

  /** `rewritten` names the snippet's variables; `subst` are the replacements done in place in what was built. */
  datatype VState = VState(rewritten: map<SnipVar, Var>, next: Var, subst: map<Var, Var>, failed: bool)

  function Subst(t: Term<Var>, sub: map<Var, Var>): Term<Var> {
    match t
    case Ref(w) => if w in sub then Ref(sub[w]) else t
    case Const(_) => t
  }

  function SubstNode(n: Node<Var>, sub: map<Var, Var>): Node<Var> {
    match n
    case And(l, r) => And(SubstNode(l, sub), SubstNode(r, sub))
    case Or(l, r) => Or(SubstNode(l, sub), SubstNode(r, sub))
    case Not(c) => Not(SubstNode(c, sub))
    case Exists(c) => Exists(SubstNode(c, sub))
    case Rel(rtype, s, o) => Rel(rtype, Subst(s, sub), Subst(o, sub))
  }

  /** `_use_orig_term`: a name given before is replaced wherever it was used. A constant has no name. */
  function UseOrigTerm(y: SnipVar, term: Term<Var>, st: VState): VState {
    match term
    case Const(_) => st.(failed := true)
    case Ref(z) =>
      st.(rewritten := st.rewritten[y := z],
          subst := if y in st.rewritten then st.subst[st.rewritten[y] := z] else st.subst)
  }

  /** `visit_variableref` and `visit_constant`. */
  function VisitTerm(t: Term<SnipVar>, st: VState, ctx: Ctx): (Term<Var>, VState) {
    match t
    case Const(c) => (Const(c), st)
    case Ref(v) =>
      if v in ctx.Fixed() then (ctx.Fixed()[v], st)
      else if v in st.rewritten then (Ref(st.rewritten[v]), st)
      else (Ref(st.next), st.(rewritten := st.rewritten[v := st.next], next := st.next + 1))
  }

  /** `accept`: children from left to right, each in the state that the one before left. */
  function Visit(n: Node<SnipVar>, neged: bool, st: VState, ctx: Ctx): (Option<Node<Var>>, VState)
    decreases n
  {
    match n
    case And(l, r) =>
      var (l', st1) := Visit(l, false, st, ctx);
      var (r', st2) := Visit(r, false, st1, ctx);
      (Both(l', r', (a, b) => And(a, b)), st2)
    case Or(l, r) =>
      var (l', st1) := Visit(l, false, st, ctx);
      var (r', st2) := Visit(r, false, st1, ctx);
      (Both(l', r', (a, b) => Or(a, b)), st2)
    case Not(c) =>
      var (c', st1) := Visit(c, true, st, ctx);
      (if c' == None then None else Some(Not(c'.value)), st1)
    case Exists(c) =>
      var (c', st1) := Visit(c, false, st, ctx);
      (if c' == None then None else Some(Exists(c'.value)), st1)
    case Rel(rtype, s, o) =>
      match ShareOf(n, neged, ctx)
      case Some(sh) => (None, UseOrigTerm(sh.y, sh.Term(), st))
      case None =>
        var (s', st1) := VisitTerm(s, st, ctx);
        var (o', st2) := VisitTerm(o, st1, ctx);
        (Some(Rel(rtype, s', o')), st2)
  }
}
