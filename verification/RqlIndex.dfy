/** `RQLRewriter.init_from_varmap`: the index of the query's relations that the visitor looks for shared relations
    in. */
module RqlIndexes {
  import opened RqlTrees
  import opened RqlSharing
  import opened RqlVisitors
  import opened Wrappers

  /** The relations of a query. Those under an `Exists` are not in the scope of the statement. */
  function RelationsIn(n: Node<Var>, inScope: bool, neged: bool): set<OrigRel> {
    match n
    case And(l, r) => RelationsIn(l, inScope, false) + RelationsIn(r, inScope, false)
    case Or(l, r) => RelationsIn(l, inScope, false) + RelationsIn(r, inScope, false)
    case Not(c) => RelationsIn(c, inScope, true)
    case Exists(c) => RelationsIn(c, false, false)
    case Rel(_, _, _) => {OrigRel(n, inScope, neged)}
  }

  function RelationsOf(where: Node<Var>): set<OrigRel> {
    RelationsIn(where, true, false)
  }

  /** A mapped variable: its name in the snippets, the query's term for it, and the types found for that term. */
  datatype Mapping = Mapping(snip: SnipVar, term: Term<Var>, types: set<EType>)

  /** A relation with the variable `t` as its object, or as its subject only. A constant has no relations in the
      index. */
  predicate About(o: OrigRel, target: Side, t: Term<Var>) {
    o.node.Rel? && t.Ref? && if target == AsObject then o.node.s == t && o.node.o != t else o.node.o == t
  }

  function RelationsAbout(where: Node<Var>, target: Side, t: Term<Var>): set<OrigRel> {
    set o | o in RelationsOf(where) && About(o, target, t)
  }

  /** The relations `rels` by their types, those of one type in any order. */
  ghost predicate Lists(index: map<string, seq<OrigRel>>, rels: set<OrigRel>) {
    && (forall o <- rels :: o.node.Rel? && o.node.rtype in index && o in index[o.node.rtype])
    && (forall r <- index :: forall o <- index[r] :: o in rels && o.node.Rel? && o.node.rtype == r)
  }

  ghost predicate ListsFor(vi: VarInfo, m: Mapping, where: Node<Var>) {
    && vi.term == m.term && vi.possibleTypes == m.types
    && Lists(vi.lhsRels, RelationsAbout(where, AsObject, m.term))
    && Lists(vi.rhsRels, RelationsAbout(where, AsSubject, m.term))
  }

  /** An index of the query: one entry for each mapped variable. */
  ghost predicate IndexOf(vis: seq<VarInfo>, mapped: seq<Mapping>, where: Node<Var>) {
    |vis| == |mapped| && forall i | 0 <= i < |vis| :: ListsFor(vis[i], mapped[i], where)
  }

  /** A later mapping of the same name counts. */
  function Revvarmap(mapped: seq<Mapping>): (m: map<SnipVar, Term<Var>>)
    ensures forall x <- m :: exists i | 0 <= i < |mapped| :: mapped[i].snip == x && mapped[i].term == m[x]
    ensures forall i | 0 <= i < |mapped| :: mapped[i].snip in m
  {
    if mapped == [] then map[]
    else
      var last := mapped[|mapped| - 1];
      Revvarmap(mapped[..|mapped| - 1])[last.snip := last.term]
  }

  /** `setdefault(rel.r_type, []).append(rel)` for each relation of a set. */
  method IndexByType(rels: set<OrigRel>) returns (index: map<string, seq<OrigRel>>)
    requires forall o <- rels :: o.node.Rel?
    ensures Lists(index, rels)
  {
    index := map[];
    var todo := rels;
    while todo != {}
      invariant todo <= rels && Lists(index, rels - todo)
    {
      var o :| o in todo;
      var r := o.node.rtype;
      index := index[r := (if r in index then index[r] else []) + [o]];
      todo := todo - {o};
    }
  }

  method IndexVariable(m: Mapping, where: Node<Var>) returns (vi: VarInfo)
    ensures ListsFor(vi, m, where)
  {
    var lhs := IndexByType(RelationsAbout(where, AsObject, m.term));
    var rhs := IndexByType(RelationsAbout(where, AsSubject, m.term));
    vi := VarInfo(m.term, m.types, lhs, rhs);
  }

  lemma OneMoreMapping(vis: seq<VarInfo>, mapped: seq<Mapping>, i: nat, vi: VarInfo, where: Node<Var>)
    requires i < |mapped| && IndexOf(vis, mapped[..i], where) && ListsFor(vi, mapped[i], where)
    ensures IndexOf(vis + [vi], mapped[..i + 1], where)
    ensures Revvarmap(mapped[..i + 1]) == Revvarmap(mapped[..i])[mapped[i].snip := mapped[i].term]
  {
    assert mapped[..i + 1][..i] == mapped[..i];
    hide ListsFor;
  }

  /** `init_from_varmap` */
  method InitFromVarmap(mapped: seq<Mapping>, where: Node<Var>)
    returns (revvarmap: map<SnipVar, Term<Var>>, varinfos: seq<VarInfo>)
    ensures IndexOf(varinfos, mapped, where) && revvarmap == Revvarmap(mapped)
  {
    revvarmap, varinfos := map[], [];
    for i := 0 to |mapped|
      invariant IndexOf(varinfos, mapped[..i], where) && revvarmap == Revvarmap(mapped[..i])
    {
      var vi := IndexVariable(mapped[i], where);
      OneMoreMapping(varinfos, mapped, i, vi, where);
      hide *;
      revvarmap := revvarmap[mapped[i].snip := mapped[i].term];
      varinfos := varinfos + [vi];
    }
    assert mapped[..|mapped|] == mapped;
  }

  // ----- the same shares from different indexes

  /** The entries of an index without the relations that are not in `where`. */
  function Only(index: map<string, seq<OrigRel>>, rels: set<OrigRel>): map<string, seq<OrigRel>> {
    map r | r in index :: Kept(index[r], rels)
  }

  function Kept(l: seq<OrigRel>, rels: set<OrigRel>): (k: seq<OrigRel>)
    ensures forall o :: o in k <==> o in l && o in rels
  {
    if l == [] then []
    else (if l[0] in rels then [l[0]] else []) + Kept(l[1..], rels)
  }

  lemma {:induction false} KeptFindsTheSame(l: seq<OrigRel>, rels: set<OrigRel>)
    requires forall o <- l :: Usable(o) ==> o in rels
    ensures CompatibleRelation(Kept(l, rels)) == CompatibleRelation(l)
  {
    if l != [] {
      KeptFindsTheSame(l[1..], rels);
      if l[0] in rels {
        assert Kept(l, rels)[1..] == Kept(l[1..], rels);
      } else {
        assert Kept(l, rels) == Kept(l[1..], rels);
      }
    }
  }

  function OnlyIn(vis: seq<VarInfo>, where: Node<Var>): (r: seq<VarInfo>)
    ensures |r| == |vis|
    ensures forall i | 0 <= i < |vis| :: r[i] == EntryIn(vis[i], where)
  {
    if vis == [] then [] else [EntryIn(vis[0], where)] + OnlyIn(vis[1..], where)
  }

  function EntryIn(vi: VarInfo, where: Node<Var>): VarInfo {
    vi.(lhsRels := Only(vi.lhsRels, RelationsOf(where)), rhsRels := Only(vi.rhsRels, RelationsOf(where)))
  }

  /** The query `later` has the relations of `first`, and no other one that may be used for `t`. */
  ghost predicate Adds(first: Node<Var>, later: Node<Var>, t: Term<Var>) {
    && RelationsOf(first) <= RelationsOf(later)
    && forall o, target | o in RelationsAbout(later, target, t) :: Usable(o) ==> o in RelationsOf(first)
  }

  lemma EntryIsEntry(vi: VarInfo, m: Mapping, first: Node<Var>, later: Node<Var>)
    requires ListsFor(vi, m, later) && Adds(first, later, m.term)
    ensures ListsFor(EntryIn(vi, first), m, first)
  {
  }

  lemma OnlyIsIndex(vis: seq<VarInfo>, mapped: seq<Mapping>, first: Node<Var>, later: Node<Var>)
    requires IndexOf(vis, mapped, later) && forall m <- mapped :: Adds(first, later, m.term)
    ensures IndexOf(OnlyIn(vis, first), mapped, first)
  {
    forall i | 0 <= i < |vis|
      ensures ListsFor(OnlyIn(vis, first)[i], mapped[i], first)
    {
      assert mapped[i] in mapped;
      EntryIsEntry(vis[i], mapped[i], first, later);
    }
  }

  /** Relations that may not be used do not matter. */
  lemma {:induction false} SameRelationFound(r: string, target: Side, vis: seq<VarInfo>, mapped: seq<Mapping>,
                                             s: Schema, first: Node<Var>, later: Node<Var>)
    requires IndexOf(vis, mapped, later) && forall m <- mapped :: Adds(first, later, m.term)
    ensures var a, b := MayBeSharedWith(r, target, vis, s), MayBeSharedWith(r, target, OnlyIn(vis, first), s);
            && (a.None? <==> b.None?)
            && (a.Some? ==> a.value.1 == b.value.1 && b.value.0 == EntryIn(a.value.0, first))
  {
    if vis != [] {
      assert IndexOf(vis[1..], mapped[1..], later);
      SameRelationFound(r, target, vis[1..], mapped[1..], s, first, later);
      assert OnlyIn(vis, first)[1..] == OnlyIn(vis[1..], first);
      var vi, m := vis[0], mapped[0];
      assert m in mapped;
      SameInEntry(r, target, vi, m, s, first, later);
      hide Adds, ListsFor, IndexOf, Serves, EntryIn;
    }
  }

  lemma SameInEntry(r: string, target: Side, vi: VarInfo, m: Mapping, s: Schema, first: Node<Var>, later: Node<Var>)
    requires ListsFor(vi, m, later) && Adds(first, later, m.term)
    ensures var vi' := EntryIn(vi, first);
            && (Serves(r, target, vi', s) <==> Serves(r, target, vi, s))
            && (Serves(r, target, vi, s) ==>
                  CompatibleRelation(RelsFor(target, vi')[r]) == CompatibleRelation(RelsFor(target, vi)[r]))
  {
    var rels := RelsFor(target, vi);
    if r in rels {
      assert forall o <- rels[r] :: o in RelationsAbout(later, target, m.term);
      KeptFindsTheSame(rels[r], RelationsOf(first));
    }
  }

  /** The decision of the visitor is the same in `later` as with the relations of `first` only. */
  lemma SameShare(d: Node<SnipVar>, neged: bool, ctx: Ctx, mapped: seq<Mapping>, first: Node<Var>, later: Node<Var>)
    requires IndexOf(ctx.varinfos, mapped, later) && forall m <- mapped :: Adds(first, later, m.term)
    ensures ShareOf(d, neged, ctx) == ShareOf(d, neged, ctx.(varinfos := OnlyIn(ctx.varinfos, first)))
  {
    if d.Rel? {
      SameRelationFound(d.rtype, AsObject, ctx.varinfos, mapped, ctx.schema, first, later);
      SameRelationFound(d.rtype, AsSubject, ctx.varinfos, mapped, ctx.schema, first, later);
      hide MayBeSharedWith, IndexOf, Adds, OnlyIn;
    }
  }
}
