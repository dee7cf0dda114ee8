/** `ExtEntitiesImporter`: a scheduler that imports a stream of entities as their targets become known. */
module Importing {
  import opened ExtEntities
  import opened Sequences

  // ----- the store, and what it is asked to do

  datatype StoreOp =
    | Insert(etype: EType, values: Values, eid: Eid)
    | Update(etype: EType, values: Values, eid: Eid)

  class Store {
    var log: seq<StoreOp>
    var relations: seq<(Eid, RType, Eid)>

    constructor ()
      ensures log == [] && relations == []
    {
      log, relations := [], [];
    }

    /** The store decides on the eid. */
    method PrepareInsertEntity(etype: EType, values: Values) returns (eid: Eid)
      modifies `log
      ensures log == old(log) + [Insert(etype, values, eid)]
    {
      eid := *;
      log := log + [Insert(etype, values, eid)];
    }

    method PrepareUpdateEntity(etype: EType, eid: Eid, values: Values)
      modifies `log
      ensures log == old(log) + [Update(etype, values, eid)]
    {
      log := log + [Update(etype, values, eid)];
    }

    method PrepareInsertRelation(subject: Eid, rtype: RType, object_: Eid)
      modifies `relations
      ensures relations == old(relations) + [(subject, rtype, object_)]
    {
      relations := relations + [(subject, rtype, object_)];
    }
  }

  /** The eids that a call hands to the store as existing ones. */
  ghost function Uses(op: StoreOp, s: Schema): set<Eid> {
    (set k | k in op.values && k.rtype in s.inlined && op.values[k].Ref? :: op.values[k].eid)
    + if op.Update? then {op.eid} else {}
  }

  ghost function Created(log: seq<StoreOp>): set<Eid> {
    set op | op in log && op.Insert? :: op.eid
  }

  /** Every call resolves its inlined relations, to eids that exist or were created by an earlier call. */
  ghost predicate LogSafe(log: seq<StoreOp>, known: set<Eid>, s: Schema) {
    log == [] ||
    var before, op := log[..|log| - 1], log[|log| - 1];
    && LogSafe(before, known, s)
    && (forall k <- op.values :: k.rtype in s.inlined ==> op.values[k].Ref?)
    && Uses(op, s) <= known + Created(before)
  }

  lemma LogGrows(log: seq<StoreOp>, op: StoreOp, known: set<Eid>, s: Schema)
    requires LogSafe(log, known, s)
    requires forall k <- op.values :: k.rtype in s.inlined ==> op.values[k].Ref?
    requires Uses(op, s) <= known + Created(log)
    ensures LogSafe(log + [op], known, s)
    ensures Created(log + [op]) == Created(log) + if op.Insert? then {op.eid} else {}
  {
    var more := log + [op];
    assert more[..|more| - 1] == log;
    assert forall o :: o in more <==> o in log || o == op;
  }

  /** The calls are those for the entities `order`, one for each: an insert for the first one of an external id that was
      not known before, an update for another one; none for another one that has no values. */
  ghost predicate Logged(log: seq<StoreOp>, order: seq<ExtEntity>, known: set<ExtId>, ids: map<ExtId, Eid>)
    reads order
  {
    if order == [] then log == []
    else
      var before, e := order[..|order| - 1], order[|order| - 1];
      && e.extid in ids
      && if e.extid !in known + ExtIds(Elements(before)) then
           log != [] && Last(log) == Insert(e.etype, e.values, ids[e.extid]) && Logged(Init(log), before, known, ids)
         else if e.values != map[] then
           log != [] && Last(log) == Update(e.etype, e.values, ids[e.extid]) && Logged(Init(log), before, known, ids)
         else Logged(log, before, known, ids)
  }

  lemma {:induction false} LoggedLater(log: seq<StoreOp>, order: seq<ExtEntity>, known: set<ExtId>,
                                       ids: map<ExtId, Eid>, later: map<ExtId, Eid>)
    requires Logged(log, order, known, ids) && forall x <- ids :: x in later && later[x] == ids[x]
    ensures Logged(log, order, known, later)
    decreases |order|
  {
    if order != [] {
      var before, e := order[..|order| - 1], order[|order| - 1];
      if e.extid !in known + ExtIds(Elements(before)) || e.values != map[] {
        LoggedLater(Init(log), before, known, ids, later);
      } else {
        LoggedLater(log, before, known, ids, later);
      }
    }
  }

  /** One more entity, and the call for it. */
  lemma {:induction false} LoggedMore(log: seq<StoreOp>, more: seq<StoreOp>, order: seq<ExtEntity>, e: ExtEntity,
                                      known: set<ExtId>, ids: map<ExtId, Eid>, later: map<ExtId, Eid>)
    requires Logged(log, order, known, ids) && e.extid in later && forall x <- ids :: x in later && later[x] == ids[x]
    requires more == if e.extid !in known + ExtIds(Elements(order))
               then log + [Insert(e.etype, e.values, later[e.extid])]
                     else if e.values != map[] then log + [Update(e.etype, e.values, later[e.extid])] else log
    ensures Logged(more, order + [e], known, later)
  {
    LoggedLater(log, order, known, ids, later);
    assert (order + [e])[..|order + [e]| - 1] == order;
    assert more == log || Init(more) == log;
  }

  // ----- what should be imported

  type NeedMap = map<ExtEntity, set<ExtId>>

  ghost function ExtIds(es: set<ExtEntity>): set<ExtId> {
    set e | e in es :: e.extid
  }

  /** Nothing that could be imported is left out. */
  ghost predicate Closed(imported: set<ExtEntity>, all: set<ExtEntity>, needs: NeedMap, known: set<ExtId>)
    requires all <= needs.Keys
  {
    forall e <- all :: needs[e] <= known + ExtIds(imported) ==> e in imported
  }

  /** Each entity comes after all that it needs. */
  ghost predicate Justified(order: seq<ExtEntity>, needs: NeedMap, known: set<ExtId>) {
    order == [] ||
    var before, e := order[..|order| - 1], order[|order| - 1];
    Justified(before, needs, known) && e in needs && needs[e] <= known + ExtIds(Elements(before))
  }

  lemma ElementsOfAppend<T>(s: seq<T>, x: T)
    ensures Elements(s + [x]) == Elements(s) + {x}
  {
    assert forall e :: e in s + [x] <==> e in s || e == x;
  }

  lemma JustifiedGrows(order: seq<ExtEntity>, e: ExtEntity, needs: NeedMap, known: set<ExtId>)
    requires Justified(order, needs, known) && e in needs && needs[e] <= known + ExtIds(Elements(order))
    ensures Justified(order + [e], needs, known)
    ensures ExtIds(Elements(order + [e])) == ExtIds(Elements(order)) + {e.extid}
  {
    var more := order + [e];
    assert more[..|more| - 1] == order;
    ElementsOfAppend(order, e);
  }

  /** What was handed over makes up what is known now. */
  ghost predicate History(order: seq<ExtEntity>, needs: NeedMap, known: set<ExtId>, keys: set<ExtId>) {
    Justified(order, needs, known) && keys == known + ExtIds(Elements(order))
  }

  lemma HistoryGrows(order: seq<ExtEntity>, e: ExtEntity, needs: NeedMap, known: set<ExtId>, keys: set<ExtId>)
    requires History(order, needs, known, keys) && e in needs && needs[e] <= keys
    ensures History(order + [e], needs, known, keys + {e.extid})
  {
    JustifiedGrows(order, e, needs, known);
  }

  /** A justified order imports nothing that some closed set leaves out. */
  lemma {:induction false} JustifiedIsLeast(
      order: seq<ExtEntity>, other: set<ExtEntity>, all: set<ExtEntity>, needs: NeedMap, known: set<ExtId>)
    requires Elements(order) <= all <= needs.Keys
    requires Justified(order, needs, known) && Closed(other, all, needs, known)
    ensures Elements(order) <= other
  {
    if order != [] {
      var before, e := order[..|order| - 1], order[|order| - 1];
      assert order == before + [e];
      ElementsOfAppend(before, e);
      JustifiedIsLeast(before, other, all, needs, known);
      assert ExtIds(Elements(before)) <= ExtIds(other);
    }
  }

  /** Hence two runs over the same entities, in whatever orders and with whatever hints,
      import the same ones. */
  lemma OrderDoesNotMatter(
      order1: seq<ExtEntity>, order2: seq<ExtEntity>, all: set<ExtEntity>, needs: NeedMap, known: set<ExtId>)
    requires Elements(order1) <= all && Elements(order2) <= all && all <= needs.Keys
    requires Justified(order1, needs, known) && Closed(Elements(order1), all, needs, known)
    requires Justified(order2, needs, known) && Closed(Elements(order2), all, needs, known)
    ensures Elements(order1) == Elements(order2)
  {
    JustifiedIsLeast(order1, Elements(order2), all, needs, known);
    JustifiedIsLeast(order2, Elements(order1), all, needs, known);
  }

  // ----- the importer

  type Queue = map<EType, seq<ExtEntity>>

  /** Prepared, and not resolved yet. */
  ghost predicate Waiting(e: ExtEntity, needs: NeedMap, s: Schema)
    reads e
  {
    e in needs && e.schemaSet && Prepared(e.values, s) && Needs(e.values, s) == needs[e]
  }

  /** The entities seen so far are handed over or queued under their type, each once. */
  ghost predicate Arranged(queue: Queue, handled: seq<ExtEntity>, seen: set<ExtEntity>) {
    && Distinct(handled) && Elements(handled) <= seen
    && (forall t <- queue :: queue[t] != [] && InLine(queue[t], t, handled, seen))
    && (forall e <- seen :: e in handled || (e.etype in queue && e in queue[e.etype]))
  }

  ghost predicate InLine(es: seq<ExtEntity>, t: EType, handled: seq<ExtEntity>, seen: set<ExtEntity>) {
    Distinct(es) && forall e <- es :: e.etype == t && e in seen && e !in handled
  }

  ghost predicate AllWaiting(handled: seq<ExtEntity>, seen: set<ExtEntity>, needs: NeedMap, s: Schema)
    reads seen
  {
    forall e <- seen :: e !in handled ==> Waiting(e, needs, s)
  }

  /** The queue when `rest` is what remains of type `t`. */
  ghost function WithRest(queue: Queue, t: EType, rest: seq<ExtEntity>): Queue {
    if rest == [] then queue - {t} else queue[t := rest]
  }

  /** Handing over an entity of the queue. */
  lemma TakeFromQueue(queue: Queue, t: EType, a: seq<ExtEntity>, e: ExtEntity, b: seq<ExtEntity>,
                      handled: seq<ExtEntity>, seen: set<ExtEntity>)
    requires Arranged(WithRest(queue, t, a + [e] + b), handled, seen)
    ensures e in seen && e !in handled
    ensures Arranged(WithRest(queue, t, a + b), handled + [e], seen)
  {
    var before, after := a + [e] + b, a + b;
    var q, q' := WithRest(queue, t, before), WithRest(queue, t, after);
    assert before[|a|] == e;
    assert e in before && q[t] == before;
    ElementsOfAppend(handled, e);
    forall x | x in before && x != e
      ensures x in after
    {
      var i :| 0 <= i < |before| && before[i] == x;
      assert if i < |a| then after[i] == x else after[i - 1] == x;
    }
    forall i, j | 0 <= i < j < |after|
      ensures after[i] != after[j] && after[i] != e && after[j] != e
    {
      var i', j' := if i < |a| then i else i + 1, if j < |a| then j else j + 1;
      assert before[i'] == after[i] && before[j'] == after[j] && before[|a|] == e;
    }
    forall t' | t' in q'
      ensures q'[t'] != [] && InLine(q'[t'], t', handled + [e], seen)
    {
      if t' != t {
        assert q'[t'] == queue[t'] == q[t'];
      } else {
        forall x | x in after
          ensures x in before && x != e
        {
          var i :| 0 <= i < |after| && after[i] == x;
          var i' := if i < |a| then i else i + 1;
          assert before[i'] == x;
        }
      }
    }
  }

  lemma WholeLine(queue: Queue, t: EType, handled: seq<ExtEntity>, seen: set<ExtEntity>)
    requires t in queue && Arranged(queue, handled, seen)
    ensures WithRest(queue, t, queue[t]) == queue
    ensures [] + queue[t][0..] == queue[t]
  {
  }

  lemma RestOfLine(queue: Queue, t: EType, rest: seq<ExtEntity>, handled: seq<ExtEntity>, seen: set<ExtEntity>)
    requires t in queue && Arranged(WithRest(queue, t, rest), handled, seen)
    ensures Arranged(if rest != [] then queue[t := rest] else queue - {t}, handled, seen)
    ensures (if rest != [] then queue[t := rest] else queue - {t}).Keys <= queue.Keys
    ensures rest == queue[t] && rest != [] ==> queue[t := rest] == queue
  {
  }

  lemma NextInLine<T>(a: seq<T>, line: seq<T>, i: nat)
    requires i <= |line|
    ensures i < |line| ==> a + line[i..] == a + [line[i]] + line[i + 1..]
    ensures i < |line| ==> a + [line[i]] + line[i + 1..] == (a + [line[i]]) + line[i + 1..]
    ensures i < |line| ==> line[..i + 1] == line[..i] + [line[i]]
    ensures i == |line| ==> a + line[i..] == a && line[..i] == line
  {
  }

  /** Queueing a new entity. */
  lemma AddToQueue(queue: Queue, e: ExtEntity, handled: seq<ExtEntity>, seen: set<ExtEntity>)
    requires Arranged(queue, handled, seen) && e !in seen
    ensures var line := (if e.etype in queue then queue[e.etype] else []) + [e];
            Arranged(queue[e.etype := line], handled, seen + {e})
  {
  }

  /** Handing over a new entity at once. */
  lemma AddToHandled(queue: Queue, e: ExtEntity, handled: seq<ExtEntity>, seen: set<ExtEntity>)
    requires Arranged(queue, handled, seen) && e !in seen
    ensures Arranged(queue, handled + [e], seen + {e})
  {
    ElementsOfAppend(handled, e);
  }

  /** None of these can be imported yet. */
  ghost predicate AllBlocked(es: seq<ExtEntity>, needs: NeedMap, known: set<ExtId>) {
    forall e <- es :: e in needs && !(needs[e] <= known)
  }

  lemma NoneIsBlocked(es: seq<ExtEntity>, needs: NeedMap, known: set<ExtId>)
    requires es == []
    ensures AllBlocked(es, needs, known)
  {
  }

  lemma OneMoreBlocked(es: seq<ExtEntity>, e: ExtEntity, needs: NeedMap, known: set<ExtId>)
    requires AllBlocked(es, needs, known) && e in needs && !(needs[e] <= known)
    ensures AllBlocked(es + [e], needs, known)
  {
  }

  type Deferred = map<RType, set<(ExtId, ExtId)>>

  ghost function Triples(d: Deferred): set<Triple> {
    set r, p | r in d && p in d[r] :: (p.0, r, p.1)
  }

  function WithTriple(d: Deferred, t: Triple): Deferred {
    d[t.1 := (if t.1 in d then d[t.1] else {}) + {(t.0, t.2)}]
  }

  lemma AddTriple(d: Deferred, t: Triple)
    ensures Triples(WithTriple(d, t)) == Triples(d) + {t}
  {
    var d' := WithTriple(d, t);
    forall u | u in Triples(d) + {t}
      ensures u in Triples(d')
    {
      assert u.1 in d' && (u.0, u.2) in d'[u.1];
    }
    forall u | u in Triples(d')
      ensures u in Triples(d) + {t}
    {
      assert u.1 in d' && (u.0, u.2) in d'[u.1];
    }
  }

  /** The relations of all these entities. */
  ghost function AllRelated(es: seq<ExtEntity>, related: map<ExtEntity, set<Triple>>): set<Triple> {
    set e, t | e in es && e in related && t in related[e] :: t
  }

  lemma NothingDeferred(es: seq<ExtEntity>, related: map<ExtEntity, set<Triple>>)
    ensures Triples(map[]) == AllRelated(es[..0], related) && Elements(es[..0]) == {}
  {
  }

  lemma AllRelatedGrows(es: seq<ExtEntity>, i: nat, related: map<ExtEntity, set<Triple>>)
    requires i < |es| && es[i] in related
    ensures AllRelated(es[..i + 1], related) == AllRelated(es[..i], related) + related[es[i]]
    ensures Elements(es[..i + 1]) == Elements(es[..i]) + {es[i]}
    ensures Distinct(es) ==> es[i] !in Elements(es[..i]) && es[i] !in es[i + 1..]
  {
    assert es[..i + 1] == es[..i] + [es[i]];
    ElementsOfAppend(es[..i], es[i]);
  }

  ghost predicate QueueBlocked(queue: Queue, needs: NeedMap, known: set<ExtId>) {
    forall t <- queue :: AllBlocked(queue[t], needs, known)
  }

  /** When all that is queued is blocked, nothing that could be imported is left out. */
  lemma BlockedIsClosed(queue: Queue, handled: seq<ExtEntity>, all: set<ExtEntity>, needs: NeedMap, known: set<ExtId>)
    requires Arranged(queue, handled, all) && all <= needs.Keys
    requires QueueBlocked(queue, needs, known + ExtIds(Elements(handled)))
    ensures Closed(Elements(handled), all, needs, known)
  {
  }

  lemma NothingYet(needs: NeedMap, known: set<ExtId>, log: seq<StoreOp>, eids: set<Eid>, s: Schema)
    ensures Arranged(map[], [], {}) && History([], needs, known, known)
    ensures LogSafe(log[|log|..], eids, s)
  {
  }

  lemma HandledSeen(queue: Queue, handled: seq<ExtEntity>, seen: set<ExtEntity>)
    requires Arranged(queue, handled, seen)
    ensures Elements(handled) <= seen
  {
  }

  class Importer {
    const schema: Schema
    const store: Store
    const etypesOrderHint: seq<EType>
    var extid2eid: map<ExtId, Eid>
    var created: set<Eid>
    var updated: set<Eid>
    ghost var handled: seq<ExtEntity>  // handed over so far, in order
    ghost var needs: NeedMap           // what each entity of the stream needs
    ghost var related: map<ExtEntity, set<Triple>>  // its other relations
    ghost var known: set<ExtId>        // the external ids known before the import
    ghost var eids: set<Eid>           // and their eids
    ghost var start: nat               // the calls that the store got before the import

    constructor (schema: Schema, store: Store, extid2eid: map<ExtId, Eid>, etypesOrderHint: seq<EType>)
      ensures this.schema == schema && this.store == store && this.extid2eid == extid2eid
      ensures this.etypesOrderHint == etypesOrderHint && created == {} && updated == {}
    {
      this.schema, this.store, this.extid2eid, this.etypesOrderHint := schema, store, extid2eid, etypesOrderHint;
      created, updated := {}, {};
    }

    /** The state between two entities. */
    ghost predicate Consistent()
      reads this, store, handled
    {
      schema.Valid() && History(handled, needs, known, extid2eid.Keys) && StoreSafe() && LogComplete()
    }

    /** The store got one call for each entity that was handed over. */
    ghost predicate LogComplete()
      reads this, store, handled
    {
      start <= |store.log| && Logged(store.log[start..], handled, known, extid2eid)
    }

    /** What the store was given is safe, and makes up what is known now. */
    ghost predicate StoreSafe()
      reads `extid2eid, `eids, `start, store`log
    {
      && start <= |store.log|
      && LogSafe(store.log[start..], eids, schema) && extid2eid.Values <= eids + Created(store.log[start..])
    }

    /** The consumer's loop body in `_import_entities`, for an entity that is ready. */
    method HandOver(e: ExtEntity, ghost v0: Values)
      requires StoreSafe() && Resolved(e.values, v0, schema, extid2eid)
      modifies `extid2eid, `created, `updated, store`log
      ensures StoreSafe() && extid2eid.Keys == old(extid2eid.Keys) + {e.extid}
      ensures if e.extid !in old(extid2eid) then
                && store.log == old(store.log) + [Insert(e.etype, e.values, extid2eid[e.extid])]
                && extid2eid == old(extid2eid)[e.extid := extid2eid[e.extid]]
                && created == old(created) + {extid2eid[e.extid]} && updated == old(updated)
              else
                && extid2eid == old(extid2eid) && created == old(created)
                && if e.values == map[] then store.log == old(store.log) && updated == old(updated)
                   else && store.log == old(store.log) + [Update(e.etype, e.values, extid2eid[e.extid])]
                        && updated == old(updated) + {extid2eid[e.extid]}
    {
      hide LogSafe, Resolved, Created, Uses;
      if e.extid !in extid2eid {
        var eid := PrepareInsertEntity(e);
        SuffixGrows(old(store.log), start, Insert(e.etype, e.values, eid));
        InsertIsSafe(old(store.log)[start..], Insert(e.etype, e.values, eid), v0, schema, old(extid2eid), e.extid,
            eids);
      } else if e.values != map[] {
        PrepareUpdateEntity(e, extid2eid[e.extid]);
        SuffixGrows(old(store.log), start, Update(e.etype, e.values, extid2eid[e.extid]));
        UpdateIsSafe(old(store.log)[start..], Update(e.etype, e.values, extid2eid[e.extid]), v0, schema, extid2eid,
            eids);
      }
    }

    /** One more entity that is handed over, and its call. */
    method HandOverNext(e: ExtEntity, ghost v0: Values)
      requires StoreSafe() && LogComplete() && Resolved(e.values, v0, schema, extid2eid)
      requires extid2eid.Keys == known + ExtIds(Elements(handled))
      modifies `extid2eid, `created, `updated, `handled, store`log
      ensures StoreSafe() && LogComplete() && handled == old(handled) + [e]
      ensures extid2eid.Keys == old(extid2eid.Keys) + {e.extid}
    {
      hide Logged, LogSafe, ExtIds, Elements, Resolved;
      HandOver(e, v0);
      CallAdded(e, old(store.log), old(extid2eid));
      handled := handled + [e];
    }

    /** An entity is handed over if it is ready; nothing changes otherwise. */
    method TryHandOver(e: ExtEntity, ghost seen: set<ExtEntity>) returns (ready: bool)
      requires Consistent() && e in seen && e !in handled && AllWaiting(handled, seen, needs, schema)
      modifies `extid2eid, `created, `updated, `handled, store`log, e`values
      ensures Consistent() && AllWaiting(handled, seen, needs, schema)
      ensures ready <==> needs[e] <= old(extid2eid).Keys
      ensures ready ==> && handled == old(handled) + [e] && Elements(old(handled)) < Elements(handled)
                        && extid2eid.Keys == old(extid2eid).Keys + {e.extid}
      ensures !ready ==> handled == old(handled) && extid2eid == old(extid2eid)
    {
      assert extid2eid.Keys == known + ExtIds(Elements(handled));
      hide History, Facts, Importer.StoreSafe, Logged, ExtIds;
      ghost var v0 := e.values;
      ready := e.IsReady(schema, extid2eid);
      if ready {
        HistoryGrows(handled, e, needs, known, extid2eid.Keys);
        HandOverNext(e, v0);
        ElementsOfAppend(old(handled), e);
      }
    }

    lemma CallAdded(e: ExtEntity, log0: seq<StoreOp>, ids: map<ExtId, Eid>)
      requires ids.Keys == known + ExtIds(Elements(handled)) && start <= |log0|
                 && Logged(log0[start..], handled, known, ids)
      requires if e.extid !in ids then
                 && e.extid in extid2eid && extid2eid == ids[e.extid := extid2eid[e.extid]]
                 && store.log == log0 + [Insert(e.etype, e.values, extid2eid[e.extid])]
               else
                 && extid2eid == ids
                 && store.log == if e.values == map[] then log0
                     else log0 + [Update(e.etype, e.values, extid2eid[e.extid])]
      ensures start <= |store.log| && Logged(store.log[start..], handled + [e], known, extid2eid)
    {
      hide Logged;
      if e.extid !in ids {
        SuffixGrows(log0, start, Insert(e.etype, e.values, extid2eid[e.extid]));
      } else if e.values != map[] {
        SuffixGrows(log0, start, Update(e.etype, e.values, extid2eid[e.extid]));
      }
      LoggedMore(log0[start..], store.log[start..], handled, e, known, ids, extid2eid);
    }

    /** One type of the queue in the loop that unlocks entities. */
    method DrainType(t: EType, queue: Queue, ghost seen: set<ExtEntity>) returns (queue': Queue, some: bool)
      requires Consistent() && Arranged(queue, handled, seen) && AllWaiting(handled, seen, needs, schema)
      requires t in queue
      modifies `extid2eid, `created, `updated, `handled, store`log, seen`values
      ensures Consistent() && Arranged(queue', handled, seen) && AllWaiting(handled, seen, needs, schema)
      ensures queue'.Keys <= queue.Keys
      ensures some ==> Elements(old(handled)) < Elements(handled)
      ensures !some ==> && handled == old(handled) && extid2eid == old(extid2eid) && queue' == queue
                        && AllBlocked(queue[t], needs, extid2eid.Keys)
    {
      WholeLine(queue, t, handled, seen);
      hide Arranged, Consistent, AllWaiting, WithRest, Elements, AllBlocked;
      assert AllBlocked(queue[t][..0], needs, extid2eid.Keys) by {
        NoneIsBlocked(queue[t][..0], needs, extid2eid.Keys);
      }
      var newQueue: seq<ExtEntity> := [];
      some := false;
      var line := queue[t];
      for i := 0 to |line|
        invariant Consistent() && AllWaiting(handled, seen, needs, schema)
        invariant Arranged(WithRest(queue, t, newQueue + line[i..]), handled, seen)
        invariant Elements(old(handled)) <= Elements(handled)
        invariant some ==> Elements(old(handled)) < Elements(handled)
        invariant !some ==> && handled == old(handled) && extid2eid == old(extid2eid) && newQueue == line[..i]
                            && AllBlocked(line[..i], needs, extid2eid.Keys)
      {
        var e := line[i];
        NextInLine(newQueue, line, i);
        TakeFromQueue(queue, t, newQueue, e, line[i + 1..], handled, seen);
        var ready := TryHandOver(e, seen);
        if ready {
          some := true;
        } else {
          newQueue := newQueue + [e];
          if !some {
            OneMoreBlocked(line[..i], e, needs, extid2eid.Keys);
          }
        }
      }
      NextInLine(newQueue, line, |line|);
      RestOfLine(queue, t, newQueue, handled, seen);
      queue' := if newQueue != [] then queue[t := newQueue] else queue - {t};
    }

    /** The loop that searches the queue again until no entity is found ready. */
    method UnlockQueued(orderHint: seq<EType>, queue: Queue, ghost seen: set<ExtEntity>) returns (queue': Queue)
      requires Consistent() && Arranged(queue, handled, seen) && AllWaiting(handled, seen, needs, schema)
      requires forall t <- queue :: t in orderHint
      modifies `extid2eid, `created, `updated, `handled, store`log, seen`values
      ensures Consistent() && Arranged(queue', handled, seen) && AllWaiting(handled, seen, needs, schema)
      ensures QueueBlocked(queue', needs, extid2eid.Keys)
    {
      hide Arranged, Consistent, AllWaiting, AllBlocked;
      queue' := queue;
      var new_ := true;
      while new_
        invariant Consistent() && Arranged(queue', handled, seen) && AllWaiting(handled, seen, needs, schema)
        invariant forall t <- queue' :: t in orderHint
        invariant !new_ ==> QueueBlocked(queue', needs, extid2eid.Keys)
        decreases seen - Elements(handled), new_
      {
        new_ := false;
        ghost var before := handled;
        for i := 0 to |orderHint|
          invariant Consistent() && Arranged(queue', handled, seen) && AllWaiting(handled, seen, needs, schema)
          invariant forall t <- queue' :: t in orderHint
          invariant !new_ ==> handled == before && forall t <- orderHint[..i] :: t in queue' ==>
                      AllBlocked(queue'[t], needs, extid2eid.Keys)
          invariant new_ ==> Elements(before) < Elements(handled)
        {
          var t := orderHint[i];
          if t in queue' {
            var some;
            queue', some := DrainType(t, queue', seen);
            new_ := new_ || some;
          }
        }
        HandledSeen(queue', handled, seen);
        assert orderHint[..|orderHint|] == orderHint;
      }
    }

    /** `deferred.setdefault(rtype, set()).add((subject, object))` for each triple. */
    method AddDeferred(deferred: Deferred, triples: seq<Triple>) returns (deferred': Deferred)
      ensures Triples(deferred') == Triples(deferred) + Elements(triples)
    {
      deferred' := deferred;
      for i := 0 to |triples|
        invariant Triples(deferred') == Triples(deferred) + Elements(triples[..i])
      {
        var t := triples[i];
        AddTriple(deferred', t);
        ElementsOfAppend(triples[..i], t);
        assert triples[..i + 1] == triples[..i] + [t];
        deferred' := WithTriple(deferred', t);
      }
      assert triples[..|triples|] == triples;
    }

    /** The state between two entities of the stream, `seen` being those that came. */
    ghost predicate Between(queue: Queue, seen: set<ExtEntity>)
      reads this, store, seen, handled
    {
      && Consistent() && Arranged(queue, handled, seen) && AllWaiting(handled, seen, needs, schema)
      && QueueBlocked(queue, needs, extid2eid.Keys)
    }

    /** An entity of the stream that did not come yet. */
    ghost predicate Unseen(e: ExtEntity)
      reads `needs, `related, e
    {
      && !e.schemaSet && Preparable(e.values, schema)
      && e in needs && needs[e] == Needs(e.values, schema)
      && e in related && related[e] == Relations(e.extid, e.values, schema)
    }

    /** The loop body of `iter_ext_entities`: the entity is prepared, then queued,
        or handed over together with all those that it unlocks. */
    method TakeNext(e: ExtEntity, queue: Queue, orderHint: seq<EType>, deferred: Deferred, ghost seen: set<ExtEntity>)
      returns (queue': Queue, orderHint': seq<EType>, deferred': Deferred)
      requires Between(queue, seen) && e !in seen && Unseen(e)
      modifies `extid2eid, `created, `updated, `handled, store`log, seen`values, e
      ensures Between(queue', seen + {e})
      ensures Triples(deferred') == Triples(deferred) + related[e]
    {
      hide Relations, Triples, Facts, Consistent;
      orderHint' := orderHint;
      var triples := e.Prepare(schema);
      deferred' := AddDeferred(deferred, triples);
      var ready := TryHandOver(e, seen + {e});
      if !ready {
        AddToQueue(queue, e, handled, seen);
        queue' := queue[e.etype := (if e.etype in queue then queue[e.etype] else []) + [e]];
      } else {
        AddToHandled(queue, e, old(handled), seen);
        queue' := queue;
        if queue != map[] {
          orderHint' := ExtendHint(orderHint, queue.Keys);
          queue' := UnlockQueued(orderHint', queue, seen + {e});
        }
      }
    }

    /** `_import_entities` and `iter_ext_entities` as one: the entities of the stream are prepared,
        and handed over as soon as what they need is known. */
    method ImportEntities(stream: seq<ExtEntity>) returns (deferred: Deferred, queue: Queue)
      requires schema.Valid() && Distinct(stream)
      requires forall e <- stream :: !e.schemaSet && Preparable(e.values, schema)
      modifies this, store`log, stream
      // what each entity needs, and what is known, before the import
      ensures needs.Keys == Elements(stream) && forall e <- stream :: needs[e] == old(Needs(e.values, schema))
      ensures known == old(extid2eid).Keys && eids == old(extid2eid).Values
      // each entity is handed over once or still queued
      ensures Arranged(queue, handled, Elements(stream))
      // what is handed over is the least set of entities that is closed under "all needs are known"
      ensures Justified(handled, needs, known) && Closed(Elements(handled), Elements(stream), needs, known)
      ensures extid2eid.Keys == known + ExtIds(Elements(handled))
      // what is still queued lacks something
      ensures QueueBlocked(queue, needs, extid2eid.Keys)
      // the store got only eids that exist or that it created before
      ensures start == old(|store.log|) <= |store.log| && LogSafe(store.log[start..], eids, schema)
      // one call for each entity that was handed over, with its values and the eid of its external id
      ensures Logged(store.log[start..], handled, known, extid2eid)
      // the other relations of all entities are deferred
      ensures related.Keys == Elements(stream) && forall e <- stream ::
                related[e] == old(Relations(e.extid, e.values, schema))
      ensures Triples(deferred) == AllRelated(stream, related)
    {
      hide Facts, Needs, Relations, Preparable, LogSafe, Logged, AllWaiting, Triples, AllRelated, Unseen, Arranged,
             Closed;
      Begin(stream);
      BeginHistory();
      deferred, queue := ConsumeStream(stream);
      BlockedIsClosed(queue, handled, Elements(stream), needs, known);
    }

    ghost method Begin(stream: seq<ExtEntity>)
      requires schema.Valid() && forall e <- stream :: !e.schemaSet && Preparable(e.values, schema)
      modifies `needs, `related
      ensures needs.Keys == Elements(stream) && forall e <- stream :: needs[e] == Needs(e.values, schema)
      ensures related.Keys == Elements(stream) && forall e <- stream ::
                related[e] == Relations(e.extid, e.values, schema)
      ensures forall e <- stream :: Unseen(e)
    {
      hide Facts, Needs, Relations, Preparable;
      needs := map e | e in stream :: Needs(e.values, schema);
      related := map e | e in stream :: Relations(e.extid, e.values, schema);
    }

    ghost method BeginHistory()
      requires schema.Valid()
      modifies `known, `eids, `start, `handled
      ensures known == extid2eid.Keys && eids == extid2eid.Values && start == |store.log|
      ensures Between(map[], {})
    {
      hide Arranged, History, LogSafe;
      NothingYet(needs, extid2eid.Keys, store.log, extid2eid.Values, schema);
      known, eids, start, handled := extid2eid.Keys, extid2eid.Values, |store.log|, [];
    }

    method ConsumeStream(stream: seq<ExtEntity>) returns (deferred: Deferred, queue: Queue)
      requires Between(map[], {}) && Distinct(stream) && forall e <- stream :: Unseen(e)
      modifies `extid2eid, `created, `updated, `handled, store`log, stream
      ensures Between(queue, Elements(stream)) && Triples(deferred) == AllRelated(stream, related)
    {
      hide Between, Relations, Facts, Needs, Preparable, Triples;
      deferred, queue := map[], map[];
      NothingDeferred(stream, related);
      var orderHint := etypesOrderHint;
      for i := 0 to |stream|
        invariant forall j | i <= j < |stream| :: Unseen(stream[j])
        invariant Between(queue, Elements(stream[..i]))
        invariant Triples(deferred) == AllRelated(stream[..i], related)
      {
        AllRelatedGrows(stream, i, related);
        queue, orderHint, deferred := TakeNext(stream[i], queue, orderHint, deferred, Elements(stream[..i]));
      }
      assert stream[..|stream|] == stream;
    }

    /** `order_hint` gets the types of the queue that it lacks. */
    method ExtendHint(hint: seq<EType>, types: set<EType>) returns (hint': seq<EType>)
      ensures hint <= hint' && Elements(hint') == Elements(hint) + types
      ensures Distinct(hint) ==> Distinct(hint')
    {
      hint' := hint;
      var todo := types;
      while todo != {}
        invariant todo <= types && hint <= hint' && Elements(hint') == Elements(hint) + (types - todo)
        invariant Distinct(hint) ==> Distinct(hint')
      {
        var t :| t in todo;
        todo := todo - {t};
        if t !in hint' {
          ElementsOfAppend(hint', t);
          hint' := hint' + [t];
        }
      }
    }

    method PrepareInsertEntity(e: ExtEntity) returns (eid: Eid)
      modifies `extid2eid, `created, store`log
      ensures store.log == old(store.log) + [Insert(e.etype, e.values, eid)]
      ensures extid2eid == old(extid2eid)[e.extid := eid] && created == old(created) + {eid}
    {
      eid := store.PrepareInsertEntity(e.etype, e.values);
      extid2eid := extid2eid[e.extid := eid];
      created := created + {eid};
    }

    method PrepareUpdateEntity(e: ExtEntity, eid: Eid)
      modifies `updated, store`log
      ensures store.log == old(store.log) + [Update(e.etype, e.values, eid)]
      ensures updated == old(updated) + {eid}
    {
      store.PrepareUpdateEntity(e.etype, eid, e.values);
      updated := updated + {eid};
    }
  }

  lemma SuffixGrows<T>(s: seq<T>, start: nat, x: T)
    requires start <= |s|
    ensures (s + [x])[start..] == s[start..] + [x]
  {
  }

  lemma InsertIsSafe(log: seq<StoreOp>, op: StoreOp, v0: Values, s: Schema, extid2eid: map<ExtId, Eid>,
                     extid: ExtId, eids: set<Eid>)
    requires LogSafe(log, eids, s) && extid2eid.Values <= eids + Created(log)
    requires op.Insert? && Resolved(op.values, v0, s, extid2eid)
    ensures LogSafe(log + [op], eids, s)
    ensures extid2eid[extid := op.eid].Values <= eids + Created(log + [op])
  {
    UsesKnown(op, v0, s, extid2eid);
    LogGrows(log, op, eids, s);
    var m := extid2eid[extid := op.eid];
    forall v | v in m.Values
      ensures v in extid2eid.Values + {op.eid}
    {
      var k :| k in m && m[k] == v;
    }
  }

  lemma UpdateIsSafe(log: seq<StoreOp>, op: StoreOp, v0: Values, s: Schema, extid2eid: map<ExtId, Eid>,
                     eids: set<Eid>)
    requires LogSafe(log, eids, s) && extid2eid.Values <= eids + Created(log)
    requires op.Update? && op.eid in extid2eid.Values && Resolved(op.values, v0, s, extid2eid)
    ensures LogSafe(log + [op], eids, s)
    ensures extid2eid.Values <= eids + Created(log + [op])
  {
    UsesKnown(op, v0, s, extid2eid);
    LogGrows(log, op, eids, s);
  }

  lemma UsesKnown(op: StoreOp, v0: Values, s: Schema, extid2eid: map<ExtId, Eid>)
    requires Resolved(op.values, v0, s, extid2eid)
    requires op.Update? ==> op.eid in extid2eid.Values
    ensures Uses(op, s) <= extid2eid.Values
    ensures forall k <- op.values :: k.rtype in s.inlined ==> op.values[k].Ref?
  {
    forall k | k in op.values && k.rtype in s.inlined
      ensures op.values[k].Ref? && op.values[k].eid in extid2eid.Values
    {
      var x := v0[k].value;
      assert x in v0[k].Ids();
      assert op.values[k] == Ref(extid2eid[x]);
    }
  }
}
