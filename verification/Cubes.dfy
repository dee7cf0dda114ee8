/** The cubes of an instance: `expand_cubes` adds what they depend on, `cmd_drop_cube` removes one that nothing depends
    on. */
module Cubes {
  import opened Sequences

  type Cube = string

  /** What cubes say they depend on and recommend, among the finitely many `known` cubes. */
  datatype Catalog = Catalog(known: set<Cube>, dependencies: Cube -> seq<Cube>, recommends: Cube -> seq<Cube>,
      available: set<Cube>)
  {
    ghost predicate Valid() {
      forall c <- known :: (forall d <- dependencies(c) :: d in known) && (forall d <- recommends(c) :: d in known)
    }

    /** The cubes that `c` brings in, in the order in which they are looked at. */
    function Brings(c: Cube, withRecommends: bool): seq<Cube> {
      dependencies(c) + if withRecommends then Available(recommends(c)) else []
    }

    function Available(cs: seq<Cube>): seq<Cube> {
      if cs == [] then []
      else if cs[0] in available then [cs[0]] + Available(cs[1..])
      else Available(cs[1..])
    }
  }

  /** Each cube of the path brings in the next one. */
  ghost predicate IsPath(p: seq<Cube>, cat: Catalog, withRecommends: bool) {
    p != [] && forall i | 0 <= i < |p| - 1 :: p[i + 1] in cat.Brings(p[i], withRecommends)
  }

  ghost predicate Reachable(roots: seq<Cube>, c: Cube, cat: Catalog, withRecommends: bool) {
    exists p :: IsPath(p, cat, withRecommends) && p[0] in roots && p[|p| - 1] == c
  }

  lemma RootIsReachable(roots: seq<Cube>, c: Cube, cat: Catalog, withRecommends: bool)
    requires c in roots
    ensures Reachable(roots, c, cat, withRecommends)
  {
    assert IsPath([c], cat, withRecommends) && [c][0] in roots;
  }

  lemma BroughtIsReachable(roots: seq<Cube>, c: Cube, d: Cube, cat: Catalog, withRecommends: bool)
    requires Reachable(roots, c, cat, withRecommends) && d in cat.Brings(c, withRecommends)
    ensures Reachable(roots, d, cat, withRecommends)
  {
    var p :| IsPath(p, cat, withRecommends) && p[0] in roots && p[|p| - 1] == c;
    var q := p + [d];
    forall i | 0 <= i < |q| - 1 ensures q[i + 1] in cat.Brings(q[i], withRecommends) {
      assert i < |p| - 1 ==> q[i + 1] == p[i + 1] && q[i] == p[i];
    }
    assert IsPath(q, cat, withRecommends) && q[0] in roots && q[|q| - 1] == d;
  }

  /** What is closed under what cubes bring in has everything that is reachable. */
  lemma {:induction false} ClosedHasPath(s: seq<Cube>, p: seq<Cube>, cat: Catalog, withRecommends: bool)
    requires forall c <- s :: forall d <- cat.Brings(c, withRecommends) :: d in s
    requires IsPath(p, cat, withRecommends) && p[0] in s
    ensures p[|p| - 1] in s
  {
    if |p| > 1 {
      ClosedHasPath(s, p[..|p| - 1], cat, withRecommends);
      assert p[|p| - 1] in cat.Brings(p[|p| - 2], withRecommends);
    }
  }

  lemma {:induction false} AvailableIs(cs: seq<Cube>, cat: Catalog)
    ensures forall d :: d in cat.Available(cs) <==> d in cs && d in cat.available
  {
    if cs != [] {
      AvailableIs(cs[1..], cat);
    }
  }

  lemma BringsKnown(c: Cube, cat: Catalog, withRecommends: bool)
    requires cat.Valid() && c in cat.known
    ensures forall d <- cat.Brings(c, withRecommends) :: d in cat.known
  {
    AvailableIs(cat.recommends(c), cat);
  }

  // ----- expand_cubes

  /** The worklist: cubes that are not in it brought in what they bring in. */
  ghost predicate Expanding(roots: seq<Cube>, cubes: seq<Cube>, todo: seq<Cube>, cat: Catalog, withRecommends: bool) {
    && roots <= cubes && (Distinct(roots) ==> Distinct(cubes))
    && (forall c <- cubes :: c in cat.known && Reachable(roots, c, cat, withRecommends))
    && (forall c <- todo :: c in cubes)
    && (forall c <- cubes :: c in todo || forall d <- cat.Brings(c, withRecommends) :: d in cubes)
  }

  /** The inner loops: what is not there yet is appended to the cubes and to the worklist. */
  method AddAll(cubes0: seq<Cube>, todo0: seq<Cube>, more: seq<Cube>, ghost cat: Catalog)
    returns (cubes: seq<Cube>, todo: seq<Cube>, ghost added: seq<Cube>)
    requires forall d <- more :: d in cat.known
    ensures cubes == cubes0 + added && todo == todo0 + added
    ensures (forall d <- added :: d in more) && (forall d <- more :: d in cubes)
              && (Distinct(cubes0) ==> Distinct(cubes))
    ensures if added == [] then cubes == cubes0 && todo == todo0
            else |cat.known - Elements(cubes)| < |cat.known - Elements(cubes0)|
  {
    cubes, todo, added := cubes0, todo0, [];
    for i := 0 to |more|
      invariant cubes == cubes0 + added && todo == todo0 + added && forall d <- added :: d in more
      invariant (forall j | 0 <= j < i :: more[j] in cubes) && (Distinct(cubes0) ==> Distinct(cubes))
      invariant if added == [] then cubes == cubes0 && todo == todo0
                else |cat.known - Elements(cubes)| < |cat.known - Elements(cubes0)|
    {
      if more[i] !in cubes {
        Fewer(cat.known, cubes, more[i]);
        assert cubes + [more[i]] == cubes0 + (added + [more[i]]);
        assert todo + [more[i]] == todo0 + (added + [more[i]]);
        cubes, todo, added := cubes + [more[i]], todo + [more[i]], added + [more[i]];
      }
    }
  }

  lemma StartsExpanding(roots: seq<Cube>, cat: Catalog, withRecommends: bool)
    requires forall c <- roots :: c in cat.known
    ensures Expanding(roots, roots, roots, cat, withRecommends)
  {
    forall c | c in roots ensures Reachable(roots, c, cat, withRecommends) {
      RootIsReachable(roots, c, cat, withRecommends);
    }
  }

  lemma OneExpanded(roots: seq<Cube>, cubes: seq<Cube>, todo: seq<Cube>, added: seq<Cube>, cat: Catalog,
                    withRecommends: bool)
    requires Expanding(roots, cubes, todo, cat, withRecommends) && todo != [] && cat.Valid()
    requires forall d <- added :: d in cat.Brings(todo[0], withRecommends)
    requires forall d <- cat.Brings(todo[0], withRecommends) :: d in cubes + added
    requires Distinct(cubes) ==> Distinct(cubes + added)
    ensures Expanding(roots, cubes + added, todo[1..] + added, cat, withRecommends)
  {
    BringsKnown(todo[0], cat, withRecommends);
    forall d | d in added ensures Reachable(roots, d, cat, withRecommends) {
      BroughtIsReachable(roots, todo[0], d, cat, withRecommends);
    }
    assert forall c <- todo :: c == todo[0] || c in todo[1..];
  }

  lemma Expanded(roots: seq<Cube>, cubes: seq<Cube>, cat: Catalog, withRecommends: bool)
    requires Expanding(roots, cubes, [], cat, withRecommends)
    ensures forall c :: c in cubes <==> Reachable(roots, c, cat, withRecommends)
  {
    forall c | Reachable(roots, c, cat, withRecommends)
      ensures c in cubes
    {
      var p :| IsPath(p, cat, withRecommends) && p[0] in roots && p[|p| - 1] == c;
      ClosedHasPath(cubes, p, cat, withRecommends);
    }
  }

  /** `expand_cubes`: the cubes that are reachable, each once, whatever cycles there are. */
  method ExpandCubes(roots: seq<Cube>, cat: Catalog, withRecommends: bool) returns (cubes: seq<Cube>)
    requires cat.Valid() && forall c <- roots :: c in cat.known
    ensures forall c :: c in cubes <==> Reachable(roots, c, cat, withRecommends)
    ensures roots <= cubes && (Distinct(roots) ==> Distinct(cubes))
  {
    cubes := roots;
    var todo := roots;
    StartsExpanding(roots, cat, withRecommends);
    while todo != []
      invariant Expanding(roots, cubes, todo, cat, withRecommends)
      decreases |cat.known - Elements(cubes)|, |todo|
    {
      var more := cat.Brings(todo[0], withRecommends);
      assert todo[0] in cubes && todo[0] in cat.known;
      BringsKnown(todo[0], cat, withRecommends);
      hide Expanding, Reachable, Elements;
      ghost var cubes0, todo0 := cubes, todo;
      ghost var added;
      cubes, todo, added := AddAll(cubes, todo[1..], more, cat);
      OneExpanded(roots, cubes0, todo0, added, cat, withRecommends);
    }
    Expanded(roots, cubes, cat, withRecommends);
  }

  // ----- cmd_drop_cube

  function Filter(s: seq<Cube>, keep: set<Cube>): seq<Cube> {
    if s == [] then [] else (if s[0] in keep then [s[0]] else []) + Filter(s[1..], keep)
  }

  lemma {:induction false} FilterIs(s: seq<Cube>, keep: set<Cube>)
    ensures forall c :: c in Filter(s, keep) <==> c in s && c in keep
    ensures Distinct(s) ==> Distinct(Filter(s, keep))
  {
    if s != [] {
      FilterIs(s[1..], keep);
      assert Distinct(s) ==> Distinct(s[1..]) && s[0] !in s[1..];
    }
  }

  class Configuration {
    var cubes: seq<Cube>
    const cat: Catalog

    constructor (cubes: seq<Cube>, cat: Catalog)
      ensures this.cubes == cubes && this.cat == cat
    {
      this.cubes, this.cat := cubes, cat;
    }

    /** The cubes that are to go. */
    method ToRemove(cube: Cube, removeDeps: bool) returns (gone: seq<Cube>)
      requires cat.Valid() && cube in cat.known
      ensures if removeDeps then forall c :: c in gone <==> Reachable([cube], c, cat, false) else gone == [cube]
      ensures cube in gone
    {
      gone := [cube];
      if removeDeps {
        gone := ExpandCubes([cube], cat, false);
      }
    }

    /** `cmd_drop_cube`: fails when one of the cubes that stay still needs the cube. The cubes are changed all the
        same. */
    method DropCube(cube: Cube, removeDeps: bool) returns (ok: bool, removed: seq<Cube>, ghost base: seq<Cube>)
      requires cat.Valid() && cube in cat.known && forall c <- cubes :: c in cat.known
      modifies this
      ensures forall c :: c in base <==> c in old(cubes) && (if removeDeps then !Reachable([cube], c, cat, false)
                else c != cube)
      ensures forall c :: c in cubes <==> c in old(cubes) && Reachable(base, c, cat, false)
      ensures removed == Filter(old(cubes), Elements(old(cubes)) - Elements(cubes))
      ensures ok <==> !(cube in old(cubes) && Reachable(base, cube, cat, false))
      ensures Distinct(old(cubes)) ==> Distinct(cubes)
    {
      var gone := ToRemove(cube, removeDeps);
      var orig := cubes;
      FilterIs(orig, Elements(orig) - Elements(gone));
      base := Filter(orig, Elements(orig) - Elements(gone));
      var basecubes := Filter(orig, Elements(orig) - Elements(gone));
      var expanded := ExpandCubes(basecubes, cat, false);
      FilterIs(expanded, Elements(orig));
      cubes := Filter(expanded, Elements(orig));
      removed := Filter(orig, Elements(orig) - Elements(cubes));
      FilterIs(orig, Elements(orig) - Elements(cubes));
      ok := cube in removed || cube !in orig;
    }
  }

  /** No cube that is kept depends on one that is removed. */
  lemma KeptNeedsKept(orig: seq<Cube>, kept: seq<Cube>, base: seq<Cube>, cat: Catalog, c: Cube, d: Cube)
    requires forall x :: x in kept <==> x in orig && Reachable(base, x, cat, false)
    requires c in kept && d in cat.dependencies(c)
    ensures d in orig ==> d in kept
  {
    BroughtIsReachable(base, c, d, cat, false);
  }

  /** When the cube is dropped, no cube that stays needs it. */
  lemma DroppedIsNotNeeded(orig: seq<Cube>, kept: seq<Cube>, base: seq<Cube>, cat: Catalog, cube: Cube, c: Cube)
    requires forall x :: x in kept <==> x in orig && Reachable(base, x, cat, false)
    requires cube in orig && !Reachable(base, cube, cat, false) && c in kept
    ensures cube !in kept && cube !in cat.dependencies(c)
  {
    if cube in cat.dependencies(c) {
      BroughtIsReachable(base, c, cube, cat, false);
    }
  }

  lemma Fewer(known: set<Cube>, cubes: seq<Cube>, d: Cube)
    requires d in known && d !in cubes
    ensures |known - Elements(cubes + [d])| < |known - Elements(cubes)|
  {
    assert known - Elements(cubes + [d]) == (known - Elements(cubes)) - {d};
    assert d in known - Elements(cubes);
  }
}
