/** `prepare_insert_deferred_relations`: the relations that wait until all entities are imported. */
module DeferredRelations {
  import opened ExtEntities
  import opened Importing
  import opened Sequences

  type Pair = (Eid, Eid)
  type Existing = map<RType, set<Pair>>

  function Of(existing: Existing, r: RType): set<Pair> {
    if r in existing then existing[r] else {}
  }

  function Swapped(p: Pair): Pair {
    (p.1, p.0)
  }

  ghost function Swap(ps: set<Pair>): set<Pair> {
    set p | p in ps :: Swapped(p)
  }

  predicate Resolvable(t: (ExtId, ExtId), extid2eid: map<ExtId, Eid>) {
    t.0 in extid2eid && t.1 in extid2eid
  }

  function Resolve(t: (ExtId, ExtId), extid2eid: map<ExtId, Eid>): Pair
    requires Resolvable(t, extid2eid)
  {
    (extid2eid[t.0], extid2eid[t.1])
  }

  ghost function ResolvedPairs(ts: set<(ExtId, ExtId)>, extid2eid: map<ExtId, Eid>): set<Pair> {
    set t | t in ts && Resolvable(t, extid2eid) :: Resolve(t, extid2eid)
  }

  /** What happens to one relation type: `inserted` goes to the store, `after` becomes known. */
  ghost predicate Completed(symmetric: bool, before: set<Pair>, pairs: set<Pair>, inserted: seq<Pair>,
                            after: set<Pair>) {
    && Distinct(inserted)
    && (forall p <- inserted :: p in pairs && p !in before)
    && (symmetric ==> forall p <- inserted :: Swapped(p) in inserted ==> p.0 == p.1)
    && after == before + Elements(inserted) + (if symmetric then Swap(Elements(inserted)) else {})
    && pairs <= after
  }

  /** The set that results does not depend on the order: it is the initial set and all the pairs,
      in both directions when the relation is symmetric and the initial set respects that. */
  lemma CompletedSet(symmetric: bool, before: set<Pair>, pairs: set<Pair>, inserted: seq<Pair>, after: set<Pair>)
    requires Completed(symmetric, before, pairs, inserted, after)
    requires symmetric ==> Swap(before) <= before
    ensures after == before + pairs + (if symmetric then Swap(pairs) else {})
    ensures symmetric ==> Swap(after) <= after && forall p <- inserted :: Swapped(p) !in before
  {
    if symmetric {
      forall p | p in after
        ensures Swapped(p) in after
      {
        assert Swapped(Swapped(p)) == p;
        if p in before {
          assert Swapped(p) in Swap(before);
        } else if p in inserted {
          assert Swapped(p) in Swap(Elements(inserted));
        } else {
          var q :| q in Elements(inserted) && Swapped(q) == p;
          assert q == Swapped(p);
        }
      }
      forall p | p in inserted
        ensures Swapped(p) !in before
      {
        assert Swapped(p) in before ==> Swapped(Swapped(p)) in Swap(before);
      }
      forall p | p in Swap(pairs)
        ensures p in after
      {
        var q :| q in pairs && Swapped(q) == p;
      }
      forall p | p in Swap(Elements(inserted))
        ensures p in Swap(pairs)
      {
        var q :| q in Elements(inserted) && Swapped(q) == p;
        assert q in pairs;
      }
    }
  }

  /** One more pair. */
  lemma InsertPair(symmetric: bool, before: set<Pair>, pairs: set<Pair>, inserted: seq<Pair>, after: set<Pair>, p: Pair)
    requires Completed(symmetric, before, pairs, inserted, after)
    ensures p in after ==> Completed(symmetric, before, pairs + {p}, inserted, after)
    ensures p !in after ==>
              Completed(symmetric, before, pairs + {p}, inserted + [p],
                        after + {p} + if symmetric then {Swapped(p)} else {})
  {
    if p !in after {
      ElementsOfAppend(inserted, p);
      var more := inserted + [p];
      assert p in inserted ==> p in Elements(inserted);
      SwapOfAppend(Elements(inserted), p);
      if symmetric {
        forall q | q in more && Swapped(q) in more
          ensures q.0 == q.1
        {
          assert Swapped(Swapped(q)) == q;
          assert Swapped(p) in inserted ==> Swapped(Swapped(p)) in Swap(Elements(inserted));
        }
      }
    }
  }

  lemma SwapOfAppend(ps: set<Pair>, p: Pair)
    ensures Swap(ps + {p}) == Swap(ps) + {Swapped(p)}
  {
    forall q | q in Swap(ps) + {Swapped(p)}
      ensures q in Swap(ps + {p})
    {
      if q in Swap(ps) {
        var r :| r in ps && Swapped(r) == q;
        assert r in ps + {p};
      } else {
        assert p in ps + {p};
      }
    }
  }

  // ----- the calls to the store

  type Call = (Eid, RType, Eid)

  /** The pairs that these calls insert for one relation type. */
  function PairsOf(calls: seq<Call>, r: RType): seq<Pair> {
    if calls == [] then []
    else PairsOf(calls[..|calls| - 1], r)
         + if calls[|calls| - 1].1 == r then [(calls[|calls| - 1].0, calls[|calls| - 1].2)] else []
  }

  lemma PairsOfAppend(calls: seq<Call>, c: Call, r: RType)
    ensures PairsOf(calls + [c], r) == PairsOf(calls, r) + if c.1 == r then [(c.0, c.2)] else []
  {
    assert (calls + [c])[..|calls|] == calls;
  }

  lemma OneMorePair(ts: set<(ExtId, ExtId)>, t: (ExtId, ExtId), m: map<ExtId, Eid>)
    ensures ResolvedPairs(ts + {t}, m) == ResolvedPairs(ts, m) + if Resolvable(t, m) then {Resolve(t, m)} else {}
  {
    forall p | p in ResolvedPairs(ts, m) + if Resolvable(t, m) then {Resolve(t, m)} else {}
      ensures p in ResolvedPairs(ts + {t}, m)
    {
      if p in ResolvedPairs(ts, m) {
        var u :| u in ts && Resolvable(u, m) && Resolve(u, m) == p;
        assert u in ts + {t};
      } else {
        assert t in ts + {t};
      }
    }
  }

  /** The triples of one type whose ends are not both known. */
  ghost function Unresolved(ts: set<(ExtId, ExtId)>, r: RType, m: map<ExtId, Eid>): set<Triple> {
    set t | t in ts && !Resolvable(t, m) :: (t.0, r, t.1)
  }

  lemma OneMoreMissing(ts: set<(ExtId, ExtId)>, t: (ExtId, ExtId), r: RType, m: map<ExtId, Eid>)
    ensures Unresolved(ts + {t}, r, m) == Unresolved(ts, r, m) + if Resolvable(t, m) then {} else {(t.0, r, t.1)}
  {
    forall p | p in Unresolved(ts, r, m) + if Resolvable(t, m) then {} else {(t.0, r, t.1)}
      ensures p in Unresolved(ts + {t}, r, m)
    {
      assert (p.0, p.2) in ts + {t};
    }
  }

  /** All the triples whose ends are not both known. */
  ghost function AllUnresolved(rs: set<RType>, d: Deferred, m: map<ExtId, Eid>): set<Triple>
    requires rs <= d.Keys
  {
    set r, t | r in rs && t in Unresolved(d[r], r, m) :: t
  }

  lemma OneMoreType(rs: set<RType>, r: RType, d: Deferred, m: map<ExtId, Eid>)
    requires rs <= d.Keys && r in d
    ensures AllUnresolved(rs + {r}, d, m) == AllUnresolved(rs, d, m) + Unresolved(d[r], r, m)
    ensures forall t <- AllUnresolved(rs, d, m) :: t.1 in rs
    ensures forall t <- Unresolved(d[r], r, m) :: t.1 == r
  {
  }

  lemma DistinctConcat<T>(a: seq<T>, b: seq<T>)
    requires Distinct(a) && Distinct(b) && Elements(a) !! Elements(b)
    ensures Distinct(a + b) && Elements(a + b) == Elements(a) + Elements(b)
  {
    forall i, j | 0 <= i < j < |a + b|
      ensures (a + b)[i] != (a + b)[j]
    {
      assert i < |a| ==> a[i] in Elements(a);
      assert j >= |a| ==> b[j - |a|] in Elements(b);
    }
    assert forall x :: x in a + b <==> x in a || x in b;
  }

  class RelationInserter {
    const schema: Schema
    const store: Store
    const extid2eid: map<ExtId, Eid>
    var existing: Existing

    constructor (schema: Schema, store: Store, extid2eid: map<ExtId, Eid>, existing: Existing)
      ensures this.schema == schema && this.store == store && this.extid2eid == extid2eid && this.existing == existing
    {
      this.schema, this.store, this.extid2eid, this.existing := schema, store, extid2eid, existing;
    }

    /** The pairs that the store got for one relation type since `start`. */
    ghost function Inserted(start: nat, r: RType): seq<Pair>
      requires start <= |store.relations|
      reads store`relations
    {
      PairsOf(store.relations[start..], r)
    }

    /** `prepare_insert_deferred_relations`. */
    method PrepareInsertDeferredRelations(deferred: Deferred) returns (missing: seq<Triple>)
      modifies `existing, store`relations
      ensures Distinct(missing) && Elements(missing) == AllUnresolved(deferred.Keys, deferred, extid2eid)
      ensures old(|store.relations|) <= |store.relations|
      ensures forall r <- deferred ::
                Completed(r in schema.symmetric, old(Of(existing, r)), ResolvedPairs(deferred[r], extid2eid),
                          Inserted(old(|store.relations|), r), Of(existing, r))
      ensures forall r: RType | r !in deferred ::
                Of(existing, r) == old(Of(existing, r)) && Inserted(old(|store.relations|), r) == []
    {
      hide Completed, AllUnresolved, ResolvedPairs, Unresolved, Of;
      missing := [];
      ghost var start := |store.relations|;
      var todo := deferred.Keys;
      NoUnresolved(deferred, extid2eid);
      while todo != {}
        invariant todo <= deferred.Keys && start <= |store.relations|
        invariant Distinct(missing) && Elements(missing) == AllUnresolved(deferred.Keys - todo, deferred, extid2eid)
        invariant forall r <- deferred.Keys - todo ::
                    Completed(r in schema.symmetric, old(Of(existing, r)), ResolvedPairs(deferred[r], extid2eid),
                              Inserted(start, r), Of(existing, r))
        invariant forall r: RType | r in todo || r !in deferred ::
                    Of(existing, r) == old(Of(existing, r)) && Inserted(start, r) == []
      {
        var rtype :| rtype in todo;
        ghost var done := deferred.Keys - todo;
        todo := todo - {rtype};
        assert deferred.Keys - todo == done + {rtype};
        OneMoreType(done, rtype, deferred, extid2eid);
        var more := InsertRelations(rtype, deferred[rtype], start);
        DistinctConcat(missing, more);
        missing := missing + more;
      }
      assert deferred.Keys - todo == deferred.Keys;
    }

    /** The pairs of one relation type, in any order. */
    method InsertRelations(rtype: RType, relations: set<(ExtId, ExtId)>, ghost start: nat)
      returns (missing: seq<Triple>)
      requires start <= |store.relations| && Inserted(start, rtype) == []
      modifies `existing, store`relations
      ensures Distinct(missing) && Elements(missing) == Unresolved(relations, rtype, extid2eid)
      ensures start <= |store.relations|
      ensures Completed(rtype in schema.symmetric, old(Of(existing, rtype)), ResolvedPairs(relations, extid2eid),
                        Inserted(start, rtype), Of(existing, rtype))
      ensures forall r: RType | r != rtype ::
                Of(existing, r) == old(Of(existing, r)) && Inserted(start, r) == old(Inserted(start, r))
    {
      missing := [];
      var todo := relations;
      ghost var before := Of(existing, rtype);
      NothingCompleted(rtype in schema.symmetric, before);
      assert ResolvedPairs({}, extid2eid) == {} && relations - todo == {};
      hide Completed, ResolvedPairs, Of;
      while todo != {}
        invariant todo <= relations && start <= |store.relations|
        invariant Distinct(missing) && Elements(missing) == Unresolved(relations - todo, rtype, extid2eid)
        invariant Completed(rtype in schema.symmetric, before, ResolvedPairs(relations - todo, extid2eid),
                            Inserted(start, rtype), Of(existing, rtype))
        invariant forall r: RType | r != rtype ::
                    Of(existing, r) == old(Of(existing, r)) && Inserted(start, r) == old(Inserted(start, r))
      {
        var t :| t in todo;
        ghost var done := relations - todo;
        todo := todo - {t};
        assert relations - todo == done + {t};
        OneMorePair(done, t, extid2eid);
        OneMoreMissing(done, t, rtype, extid2eid);
        if !Resolvable(t, extid2eid) {
          NotYetMissing(done, t, rtype, extid2eid);
          DistinctConcat(missing, [(t.0, rtype, t.1)]);
          missing := missing + [(t.0, rtype, t.1)];
        } else {
          InsertOne(rtype, Resolve(t, extid2eid), before, ResolvedPairs(done, extid2eid), start);
        }
      }
      assert relations - todo == relations;
    }

    /** One pair whose ends are known. */
    method InsertOne(rtype: RType, p: Pair, ghost before: set<Pair>, ghost pairs: set<Pair>, ghost start: nat)
      requires start <= |store.relations|
      requires Completed(rtype in schema.symmetric, before, pairs, Inserted(start, rtype), Of(existing, rtype))
      modifies `existing, store`relations
      ensures start <= |store.relations|
      ensures Completed(rtype in schema.symmetric, before, pairs + {p}, Inserted(start, rtype), Of(existing, rtype))
      ensures forall r: RType | r != rtype ::
                Of(existing, r) == old(Of(existing, r)) && Inserted(start, r) == old(Inserted(start, r))
    {
      hide Completed;
      InsertPair(rtype in schema.symmetric, before, pairs, Inserted(start, rtype), Of(existing, rtype), p);
      if p !in Of(existing, rtype) {
        CallStore(rtype, p, start);
        existing := existing[rtype := Of(existing, rtype) + {p}];
        if rtype in schema.symmetric {
          existing := existing[rtype := Of(existing, rtype) + {Swapped(p)}];
        }
        assert Of(existing, rtype) == old(Of(existing, rtype)) + {p} + if rtype in schema.symmetric then {Swapped(p)}
                 else {};
      }
    }

    method CallStore(rtype: RType, p: Pair, ghost start: nat)
      requires start <= |store.relations|
      modifies store`relations
      ensures start <= |store.relations|
      ensures forall r: RType :: Inserted(start, r) == old(Inserted(start, r)) + if r == rtype then [p] else []
    {
      store.PrepareInsertRelation(p.0, rtype, p.1);
      SuffixGrows(old(store.relations), start, (p.0, rtype, p.1));
      forall r: RType
        ensures Inserted(start, r) == old(Inserted(start, r)) + if r == rtype then [p] else []
      {
        PairsOfAppend(old(store.relations)[start..], (p.0, rtype, p.1), r);
      }
    }
  }

  lemma NoUnresolved(d: Deferred, m: map<ExtId, Eid>)
    ensures AllUnresolved({}, d, m) == {} && d.Keys - d.Keys == {}
  {
  }

  lemma NothingCompleted(symmetric: bool, before: set<Pair>)
    ensures Completed(symmetric, before, {}, [], before)
  {
  }

  lemma NotYetMissing(ts: set<(ExtId, ExtId)>, t: (ExtId, ExtId), r: RType, m: map<ExtId, Eid>)
    requires t !in ts
    ensures (t.0, r, t.1) !in Unresolved(ts, r, m)
  {
  }
}
