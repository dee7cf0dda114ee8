/** `MassiveObjectStore`: several stores reserve ranges of eids from one sequence and stage data in tables of their own;
    the master then fills the real tables, statement by statement. */
module MassiveStores {
  import opened Sequences
  import opened Wrappers

  type Eid = nat
  type EType = string
  type RType = string

  // ----- eids

  /** The sequence 'entities_id_seq', the generators that draw from it, and every eid that was handed out. */
  class EidSequence {
    var last: nat
    const start: nat
    ghost var handed: seq<Eid>
    ghost var generators: set<EidGenerator>

    constructor (start: nat)
      ensures Valid() && this.start == start && handed == [] && generators == {}
    {
      this.start, this.last, this.handed, this.generators := start, start, [], {};
    }

    /** No eid was handed out twice, or is in the range of a generator that will hand it out, or of two of them. */
    ghost predicate Valid()
      reads this, generators
    {
      && start <= last && (forall i, j | 0 <= i < j < |handed| :: handed[i] != handed[j])
      && (forall i | 0 <= i < |handed| :: start < handed[i] <= last)
      && (forall g <- generators :: g.sequence == this && start < g.next && (g.next <= g.stop ==> g.stop <= last))
      && (forall g, i | g in generators && 0 <= i < |handed| :: !g.Has(handed[i]))
      && (forall g, h | g in generators && h in generators && g != h :: forall e :: !(g.Has(e) && h.Has(e)))
    }

    /** `create_eid`: the last of `count` new eids. */
    method CreateEid(count: nat) returns (eid: Eid)
      requires Valid() && count > 0
      modifies this`last
      ensures Valid() && eid == last == old(last) + count
    {
      last := last + count;
      eid := last;
    }
  }

  /** `_get_eid_gen`: what is left of the reserved range is from `next` to `stop`. */
  class EidGenerator {
    const sequence: EidSequence
    const range: nat
    var next: nat
    var stop: nat

    ghost predicate Has(e: Eid)
      reads this
    {
      next <= e <= stop
    }

    constructor (sequence: EidSequence, range: nat)
      requires sequence.Valid() && range > 0
      modifies sequence`generators
      ensures this.sequence == sequence && this.range == range && stop < next
      ensures sequence.Valid() && sequence.generators == old(sequence.generators) + {this}
    {
      this.sequence, this.range, this.next, this.stop := sequence, range, sequence.start + 1, sequence.start;
      new;
      sequence.generators := sequence.generators + {this};
    }

    /** Reserves another range when this one is used up. */
    method Reserve()
      requires sequence.Valid() && this in sequence.generators && range > 0
      modifies this, sequence`last
      ensures sequence.Valid() && Has(next)
    {
      if next > stop {
        var lastEid := sequence.CreateEid(range);
        next, stop := lastEid - range + 1, lastEid;
      }
    }

    method GetNextEid() returns (eid: Eid)
      requires sequence.Valid() && this in sequence.generators && range > 0
      modifies this, sequence`last, sequence`handed
      ensures sequence.Valid() && sequence.handed == old(sequence.handed) + [eid]
      ensures eid !in old(sequence.handed) && eid > sequence.start
    {
      Reserve();
      eid := Take();
    }

    /** The next eid of the range. */
    method Take() returns (eid: Eid)
      requires sequence.Valid() && this in sequence.generators && Has(next)
      modifies `next, sequence`handed
      ensures sequence.Valid() && sequence.handed == old(sequence.handed) + [eid]
      ensures eid !in old(sequence.handed) && eid > sequence.start
    {
      eid := next;
      forall i | 0 <= i < |sequence.handed|
        ensures sequence.handed[i] != eid
      {
        assert !Has(sequence.handed[i]);
      }
      forall g | g in sequence.generators && g != this
        ensures !g.Has(eid)
      {
        assert !(g.Has(eid) && Has(eid));
      }
      next := next + 1;
      sequence.handed := sequence.handed + [eid];
    }
  }

  // ----- stores

  function Of(m: map<EType, seq<Eid>>, etype: EType): seq<Eid> {
    if etype in m then m[etype] else []
  }

  /** A store: what it has in memory for each type, and what it flushed to its own table of the type. */
  class Store {
    const generator: EidGenerator
    var data: map<EType, seq<Eid>>
    var tables: map<EType, seq<Eid>>
    ghost var prepared: map<EType, seq<Eid>>

    /** Every entity that was prepared is in a table or still in memory, once, and in order. */
    ghost predicate Valid()
      reads this
    {
      forall etype :: Of(tables, etype) + Of(data, etype) == Of(prepared, etype)
    }

    constructor (generator: EidGenerator)
      ensures Valid() && this.generator == generator && prepared == map[]
    {
      this.generator, data, tables, prepared := generator, map[], map[], map[];
    }

    /** `prepare_insert_entity`, with an eid of the caller's or a new one. */
    method PrepareInsertEntity(etype: EType, given: Option<Eid>) returns (eid: Eid)
      requires Valid() && generator.sequence.Valid() && generator in generator.sequence.generators
                 && generator.range > 0
      modifies this, generator, generator.sequence`last, generator.sequence`handed
      ensures Valid() && generator.sequence.Valid()
      ensures prepared == old(prepared)[etype := Of(old(prepared), etype) + [eid]]
      ensures match given
              case Some(e) => eid == e && generator.sequence.handed == old(generator.sequence.handed)
              case None => && eid !in old(generator.sequence.handed) && eid > generator.sequence.start
                           && generator.sequence.handed == old(generator.sequence.handed) + [eid]
    {
      match given {
        case Some(e) => eid := e;
        case None => eid := generator.GetNextEid();
      }
      Append(Of(tables, etype), Of(data, etype), eid);
      prepared := prepared[etype := Of(prepared, etype) + [eid]];
      data := data[etype := Of(data, etype) + [eid]];
    }

    /** `flush_entities` */
    method FlushEntities()
      requires Valid()
      modifies `data, `tables
      ensures Valid() && forall etype :: Of(data, etype) == [] && Of(tables, etype) == Of(prepared, etype)
    {
      var todo := data.Keys;
      while todo != {}
        invariant Valid() && todo <= data.Keys
        invariant forall etype <- data :: etype in todo || data[etype] == []
        decreases |todo|
      {
        var etype :| etype in todo;
        todo := todo - {etype};
        tables := tables[etype := Of(tables, etype) + data[etype]];
        data := data[etype := []];
      }
    }
  }

  lemma Append(a: seq<Eid>, b: seq<Eid>, e: Eid)
    ensures a + (b + [e]) == (a + b) + [e]
  {
  }

  // ----- tables

  type Pair = (Eid, Eid)

  /** A table of staged entities: their type, and the column of their eids. */
  datatype Staged = Staged(etype: EType, eids: seq<Eid>)

  datatype StagedRelation = StagedRelation(rtype: RType, pairs: seq<Pair>)

  /** Relations that every new entity of a type gets: those of the metadata generator, its source, its type
      and the types that it is an instance of. */
  datatype Metadata = Metadata(base: EType -> seq<(RType, Eid)>, source: Eid, eidOf: EType -> Eid,
      ancestors: EType -> seq<EType>)
  {
    function Lineage(etype: EType): seq<EType> {
      ancestors(etype) + [etype]
    }

    function InstanceOf(types: seq<EType>): seq<(RType, Eid)> {
      seq(|types|, i requires 0 <= i < |types| => ("is_instance_of", eidOf(types[i])))
    }

    function Relations(etype: EType): seq<(RType, Eid)> {
      base(etype) + [("cw_source", source), ("is", eidOf(etype))] + InstanceOf(Lineage(etype))
    }
  }

  /** How often `(rtype, to)` is in the list. */
  function Times(meta: seq<(RType, Eid)>, rtype: RType, to: Eid): nat {
    multiset(meta)[(rtype, to)]
  }

  function TableOf(rels: map<RType, multiset<Pair>>, rtype: RType): multiset<Pair> {
    if rtype in rels then rels[rtype] else multiset{}
  }

  /** The eids that are not in the entities table, as often as they are staged. */
  function NewEids(eids: seq<Eid>, entities: map<Eid, EType>): seq<Eid> {
    if eids == [] then []
    else
      var rest := NewEids(eids[..|eids| - 1], entities);
      if eids[|eids| - 1] in entities then rest else rest + [eids[|eids| - 1]]
  }

  function PairsTo(eids: seq<Eid>, to: Eid): multiset<Pair> {
    if eids == [] then multiset{} else PairsTo(eids[..|eids| - 1], to) + multiset{(eids[|eids| - 1], to)}
  }

  lemma {:induction false} PairsAre(eids: seq<Eid>, to: Eid)
    ensures forall e: Eid, t: Eid :: PairsTo(eids, to)[(e, t)] == if t == to then multiset(eids)[e] else 0
  {
    if eids != [] {
      PairsAre(eids[..|eids| - 1], to);
      assert eids == eids[..|eids| - 1] + [eids[|eids| - 1]];
    }
  }

  lemma {:induction false} NewEidsAre(eids: seq<Eid>, entities: map<Eid, EType>)
    ensures forall e :: multiset(NewEids(eids, entities))[e] == if e in entities then 0 else multiset(eids)[e]
  {
    if eids != [] {
      NewEidsAre(eids[..|eids| - 1], entities);
      assert eids == eids[..|eids| - 1] + [eids[|eids| - 1]];
    }
  }

  class Database {
    /** The entities table, with its primary key. */
    var entities: map<Eid, EType>
    var rels: map<RType, multiset<Pair>>
    var rows: map<EType, multiset<Eid>>

    function Count(rtype: RType, e: Eid, t: Eid): nat
      reads this
    {
      TableOf(rels, rtype)[(e, t)]
    }

    /** `fill_meta_relation_table` */
    method FillMetaRelation(eids: seq<Eid>, rtype: RType, to: Eid)
      modifies `rels
      ensures forall r: RType, e: Eid, t: Eid :: Count(r, e, t) == old(Count(r, e, t))
                                + if r == rtype && t == to && e !in entities then multiset(eids)[e] else 0
    {
      PairsAre(NewEids(eids, entities), to);
      NewEidsAre(eids, entities);
      rels := rels[rtype := TableOf(rels, rtype) + PairsTo(NewEids(eids, entities), to)];
    }

    /** `fill_entities_table`: an eid that is staged twice violates the primary key. */
    method FillEntities(etype: EType, eids: seq<Eid>) returns (ok: bool)
      modifies `entities
      ensures ok <==> forall e :: e in old(entities) || multiset(eids)[e] <= 1
      ensures ok ==> entities == old(entities) + map e | e in eids && e !in old(entities) :: etype
      ensures !ok ==> entities == old(entities)
    {
      NewEidsAre(eids, entities);
      var new_ := NewEids(eids, entities);
      ok := Distinct(new_);
      DistinctIs(new_);
      if ok {
        entities := entities + map e | e in eids && e !in entities :: etype;
      }
    }

    /** `_insert_etype_metadata`: every new entity of the table gets each of the metadata relations of its type. */
    method InsertMetadata(eids: seq<Eid>, etype: EType, md: Metadata) returns (ok: bool)
      modifies `rels, `entities
      ensures ok <==> forall e :: e in old(entities) || multiset(eids)[e] <= 1
      ensures ok ==> entities == old(entities) + map e | e in eids && e !in old(entities) :: etype
      ensures !ok ==> entities == old(entities)
      ensures forall r: RType, e: Eid, t: Eid :: Count(r, e, t) == old(Count(r, e, t))
                                + if e in old(entities) then 0 else multiset(eids)[e] * Times(md.Relations(etype), r, t)
    {
      var meta := md.Relations(etype);
      for i := 0 to |meta|
        invariant entities == old(entities)
        invariant forall r: RType, e: Eid, t: Eid :: Count(r, e, t) == old(Count(r, e, t))
                                    + if e in entities then 0 else multiset(eids)[e] * Times(meta[..i], r, t)
      {
        FillMetaRelation(eids, meta[i].0, meta[i].1);
        TimesOfMore(meta, i, eids);
      }
      assert meta[..|meta|] == meta;
      ok := FillEntities(etype, eids);
    }

    /** `fill_relation_table`: pairs that are staged come in once, unless they are there. */
    method FillRelation(rtype: RType, pairs: seq<Pair>)
      modifies `rels
      ensures forall r: RType, e: Eid, t: Eid :: Count(r, e, t) ==
                if r == rtype && (e, t) in pairs && old(Count(r, e, t)) == 0 then 1 else old(Count(r, e, t))
    {
      var table := TableOf(rels, rtype);
      rels := rels[rtype := table + multiset(set p | p in pairs && p !in table)];
    }

    /** One turn of the loop of `_finish` over the tables of entities. */
    method FinishTable(s: Staged, md: Metadata) returns (ok: bool)
      modifies this
      ensures ok <==> forall e: Eid :: e in old(entities) || multiset(s.eids)[e] <= 1
      ensures ok ==> entities == old(entities) + map e | e in s.eids && e !in old(entities) :: s.etype
      ensures forall r: RType, e: Eid, t: Eid :: Count(r, e, t) == old(Count(r, e, t))
                + if e in old(entities) then 0 else multiset(s.eids)[e] * Times(md.Relations(s.etype), r, t)
      ensures RowsAdded(old(rows), rows, s)
    {
      AddsRows(rows, s);
      rows := rows[s.etype := RowsOf(rows, s.etype) + multiset(s.eids)];
      hide RowsAdded, Times;
      ok := InsertMetadata(s.eids, s.etype, md);
    }

    /** The part of `_finish` for entities: each table in turn. It fails exactly when a new eid is staged twice in the
        first table that has it. */
    method FinishEntities(staged: seq<Staged>, md: Metadata) returns (ok: bool)
      modifies this
      ensures ok <==> Unrepeated(staged, old(entities))
      ensures ok ==> Given(staged, old(entities), entities)
      ensures ok ==> forall r: RType, e: Eid, t: Eid ::
                Count(r, e, t) == old(Count(r, e, t)) + Due(staged, old(entities), md, r, e, t)
      ensures ok ==> RowsStaged(old(rows), rows, staged)
    {
      ok := true;
      for i := 0 to |staged|
        invariant RowsStaged(old(rows), rows, staged[..i])
        invariant ok && Unrepeated(staged[..i], old(entities)) && Given(staged[..i], old(entities), entities)
        invariant forall r: RType, e: Eid, t: Eid ::
                    Count(r, e, t) == old(Count(r, e, t)) + Due(staged[..i], old(entities), md, r, e, t)
      {
        ghost var before, rows0 := entities, rows;
        ok := FinishTable(staged[i], md);
        RowsStagedMore(old(rows), rows0, rows, staged, i);
        hide Given, Unrepeated, Due, Times, RowsStaged;
        OneMoreTable(staged, i, old(entities), before, md);
        if !ok {
          return;
        }
      }
      assert staged[..|staged|] == staged;
    }

    /** The part of `_finish` for relations. */
    method FinishRelations(staged: seq<StagedRelation>)
      modifies `rels
      ensures forall r: RType, e: Eid, t: Eid :: Count(r, e, t) ==
                if old(Count(r, e, t)) == 0 && IsStaged(staged, r, (e, t)) then 1 else old(Count(r, e, t))
    {
      for i := 0 to |staged|
        invariant forall r: RType, e: Eid, t: Eid :: Count(r, e, t) ==
                    if old(Count(r, e, t)) == 0 && IsStaged(staged[..i], r, (e, t)) then 1 else old(Count(r, e, t))
      {
        FillRelation(staged[i].rtype, staged[i].pairs);
        StagedMore(staged, i);
      }
      assert staged[..|staged|] == staged;
    }

    /** `_finish`, in a transaction: the tables are as they were when it fails. */
    method Finish(staged: seq<Staged>, relations: seq<StagedRelation>, md: Metadata) returns (ok: bool)
      modifies this
      ensures ok <==> Unrepeated(staged, old(entities))
      ensures !ok ==> entities == old(entities) && rels == old(rels) && rows == old(rows)
      ensures ok ==> Given(staged, old(entities), entities)
      ensures ok ==> forall r: RType, e: Eid, t: Eid ::
                var count := old(Count(r, e, t)) + Due(staged, old(entities), md, r, e, t);
                Count(r, e, t) == if count == 0 && IsStaged(relations, r, (e, t)) then 1 else count
      ensures ok ==> RowsStaged(old(rows), rows, staged)
    {
      var entities0, rels0, rows0 := entities, rels, rows;
      ok := FinishEntities(staged, md);
      if ok {
        FinishRelations(relations);
      } else {
        entities, rels, rows := entities0, rels0, rows0;
      }
    }
  }

  ghost predicate IsStaged(staged: seq<StagedRelation>, r: RType, p: Pair) {
    exists s <- staged :: s.rtype == r && p in s.pairs
  }

  lemma StagedMore(staged: seq<StagedRelation>, i: nat)
    requires i < |staged|
    ensures forall r: RType, p: Pair :: IsStaged(staged[..i + 1], r, p) <==>
              IsStaged(staged[..i], r, p) || (staged[i].rtype == r && p in staged[i].pairs)
  {
    var before, more := staged[..i], staged[..i + 1];
    assert more == before + [staged[i]];
    forall r: RType, p: Pair
      ensures IsStaged(more, r, p) <==> IsStaged(before, r, p) || (staged[i].rtype == r && p in staged[i].pairs)
    {
      if IsStaged(more, r, p) {
        var s :| s in more && s.rtype == r && p in s.pairs;
        assert s in before || s == staged[i];
      }
      assert staged[i] in more;
    }
  }

  function RowsOf(rows: map<EType, multiset<Eid>>, etype: EType): multiset<Eid> {
    if etype in rows then rows[etype] else multiset{}
  }

  /** The eids that are staged for a type. */
  function StagedRows(staged: seq<Staged>, etype: EType): multiset<Eid> {
    if staged == [] then multiset{}
    else
      var last := staged[|staged| - 1];
      StagedRows(staged[..|staged| - 1], etype) + if last.etype == etype then multiset(last.eids) else multiset{}
  }

  ghost predicate RowsAdded(before: map<EType, multiset<Eid>>, after: map<EType, multiset<Eid>>, s: Staged) {
    forall etype :: RowsOf(after, etype) == RowsOf(before, etype) + if etype == s.etype then multiset(s.eids)
        else multiset{}
  }

  lemma AddsRows(rows: map<EType, multiset<Eid>>, s: Staged)
    ensures RowsAdded(rows, rows[s.etype := RowsOf(rows, s.etype) + multiset(s.eids)], s)
  {
  }

  /** The tables of the types have one more row for each staged row. */
  ghost predicate RowsStaged(before: map<EType, multiset<Eid>>, after: map<EType, multiset<Eid>>, staged: seq<Staged>) {
    forall etype :: RowsOf(after, etype) == RowsOf(before, etype) + StagedRows(staged, etype)
  }

  lemma RowsStagedMore(rows0: map<EType, multiset<Eid>>, before: map<EType, multiset<Eid>>,
                       after: map<EType, multiset<Eid>>, staged: seq<Staged>, i: nat)
    requires i < |staged| && RowsStaged(rows0, before, staged[..i]) && RowsAdded(before, after, staged[i])
    ensures RowsStaged(rows0, after, staged[..i + 1])
  {
    assert staged[..i + 1][..i] == staged[..i];
  }

  /** The first of the tables that has the eid. */
  function FirstOf(staged: seq<Staged>, e: Eid): Option<Staged> {
    if staged == [] then None
    else
      var before, last := FirstOf(staged[..|staged| - 1], e), staged[|staged| - 1];
      if before.Some? then before else if e in last.eids then Some(last) else None
  }

  /** Every staged eid has one row in the entities table, with the type of the first table that has it. */
  ghost predicate Given(staged: seq<Staged>, entities0: map<Eid, EType>, entities: map<Eid, EType>) {
    forall e: Eid ::
      && (e in entities <==> e in entities0 || FirstOf(staged, e).Some?)
      && (e in entities0 ==> entities[e] == entities0[e])
      && (e !in entities0 && FirstOf(staged, e).Some? ==> entities[e] == FirstOf(staged, e).value.etype)
  }

  /** How often a new entity gets a metadata relation. */
  function Due(staged: seq<Staged>, entities0: map<Eid, EType>, md: Metadata, r: RType, e: Eid, t: Eid): nat {
    if e in entities0 || FirstOf(staged, e).None? then 0 else Times(md.Relations(FirstOf(staged, e).value.etype), r, t)
  }

  /** No new eid is staged twice in the first table that has it. */
  ghost predicate Unrepeated(staged: seq<Staged>, entities0: map<Eid, EType>) {
    forall e: Eid :: e !in entities0 && FirstOf(staged, e).Some? ==> multiset(FirstOf(staged, e).value.eids)[e] == 1
  }

  lemma {:induction false} FirstStays(staged: seq<Staged>, i: nat, e: Eid)
    requires i <= |staged| && FirstOf(staged[..i], e).Some?
    ensures FirstOf(staged, e) == FirstOf(staged[..i], e)
  {
    if i == |staged| {
      assert staged[..i] == staged;
    } else {
      assert staged[..|staged| - 1][..i] == staged[..i];
      FirstStays(staged[..|staged| - 1], i, e);
    }
  }

  lemma FirstOfMore(staged: seq<Staged>, i: nat, e: Eid)
    requires i < |staged|
    ensures FirstOf(staged[..i + 1], e) == if FirstOf(staged[..i], e).Some? then FirstOf(staged[..i], e)
                                           else if e in staged[i].eids then Some(staged[i]) else None
  {
    assert staged[..i + 1][..i] == staged[..i];
  }

  lemma GivenMore(staged: seq<Staged>, i: nat, entities0: map<Eid, EType>, before: map<Eid, EType>)
    requires i < |staged| && Given(staged[..i], entities0, before)
    ensures Given(staged[..i + 1], entities0, before + map e | e in staged[i].eids && e !in before :: staged[i].etype)
  {
    forall e: Eid
      ensures FirstOf(staged[..i + 1], e) == if FirstOf(staged[..i], e).Some? then FirstOf(staged[..i], e)
                                             else if e in staged[i].eids then Some(staged[i]) else None
    {
      FirstOfMore(staged, i, e);
    }
  }

  lemma DueMore(staged: seq<Staged>, i: nat, entities0: map<Eid, EType>, before: map<Eid, EType>, md: Metadata,
                r: RType, e: Eid, t: Eid)
    requires i < |staged| && Given(staged[..i], entities0, before)
    requires e in before || multiset(staged[i].eids)[e] <= 1
    ensures Due(staged[..i + 1], entities0, md, r, e, t)
            == Due(staged[..i], entities0, md, r, e, t)
               + if e in before then 0 else multiset(staged[i].eids)[e] * Times(md.Relations(staged[i].etype), r, t)
  {
    FirstOfMore(staged, i, e);
  }

  lemma OneMoreTable(staged: seq<Staged>, i: nat, entities0: map<Eid, EType>, before: map<Eid, EType>, md: Metadata)
    requires i < |staged| && Given(staged[..i], entities0, before) && Unrepeated(staged[..i], entities0)
    ensures Given(staged[..i + 1], entities0, before + map e | e in staged[i].eids && e !in before :: staged[i].etype)
    ensures var ok := forall e: Eid :: e in before || multiset(staged[i].eids)[e] <= 1;
            && (ok ==> Unrepeated(staged[..i + 1], entities0)) && (!ok ==> !Unrepeated(staged, entities0))
            && (ok ==> forall r: RType, e: Eid, t: Eid ::
                  Due(staged[..i + 1], entities0, md, r, e, t) == Due(staged[..i], entities0, md, r, e, t)
                    + if e in before then 0 else multiset(staged[i].eids)[e] * Times(md.Relations(staged[i].etype), r,
                        t))
  {
    GivenMore(staged, i, entities0, before);
    if forall e: Eid :: e in before || multiset(staged[i].eids)[e] <= 1 {
      forall r: RType, e: Eid, t: Eid
        ensures Due(staged[..i + 1], entities0, md, r, e, t)
                == Due(staged[..i], entities0, md, r, e, t)
                   + if e in before then 0 else multiset(staged[i].eids)[e] * Times(md.Relations(staged[i].etype), r, t)
      {
        DueMore(staged, i, entities0, before, md, r, e, t);
      }
      UnrepeatedMore(staged, i, entities0, before);
    } else {
      var e: Eid :| e !in before && multiset(staged[i].eids)[e] > 1;
      FirstOfMore(staged, i, e);
      FirstStays(staged, i + 1, e);
    }
  }

  lemma UnrepeatedMore(staged: seq<Staged>, i: nat, entities0: map<Eid, EType>, before: map<Eid, EType>)
    requires i < |staged| && Given(staged[..i], entities0, before) && Unrepeated(staged[..i], entities0)
    requires forall e: Eid :: e in before || multiset(staged[i].eids)[e] <= 1
    ensures Unrepeated(staged[..i + 1], entities0)
  {
    forall e: Eid | e !in entities0 && FirstOf(staged[..i + 1], e).Some?
      ensures multiset(FirstOf(staged[..i + 1], e).value.eids)[e] == 1
    {
      FirstOfMore(staged, i, e);
    }
  }

  // ----- the metadata of a new entity

  lemma TimesOfConcat(a: seq<(RType, Eid)>, b: seq<(RType, Eid)>, r: RType, t: Eid)
    ensures Times(a + b, r, t) == Times(a, r, t) + Times(b, r, t)
  {
  }

  lemma {:induction false} TimesOfOthers(meta: seq<(RType, Eid)>, r: RType, t: Eid)
    requires forall m <- meta :: m.0 != r
    ensures Times(meta, r, t) == 0
  {
  }

  lemma {:induction false} TimesInstanceOf(md: Metadata, types: seq<EType>, t: Eid)
    requires forall i, j | 0 <= i < j < |types| :: md.eidOf(types[i]) != md.eidOf(types[j])
    ensures Times(md.InstanceOf(types), "is_instance_of", t) == if exists c <- types :: md.eidOf(c) == t then 1 else 0
  {
    if types == [] {
      assert md.InstanceOf(types) == [];
    } else {
      var before, last := types[..|types| - 1], types[|types| - 1];
      TimesInstanceOf(md, before, t);
      assert md.InstanceOf(types) == md.InstanceOf(before) + [("is_instance_of", md.eidOf(last))];
      assert forall c :: c in types <==> c in before || c == last;
      if md.eidOf(last) == t {
        assert forall c <- before :: md.eidOf(c) != t by {
          forall c | c in before ensures md.eidOf(c) != t {
            var i :| 0 <= i < |before| && before[i] == c;
            assert types[i] == c;
          }
        }
      }
    }
  }

  /** The metadata generator leaves the relations of the system source alone, and different classes have different
      eids. */
  predicate GoodMetadata(md: Metadata, etype: EType) {
    && (forall m <- md.base(etype) :: m.0 != "is" && m.0 != "cw_source" && m.0 != "is_instance_of")
    && var l := md.Lineage(etype); forall i, j | 0 <= i < j < |l| :: md.eidOf(l[i]) != md.eidOf(l[j])
  }

  /** The relations that the system source makes. */
  predicate OfSource(r: RType) {
    r == "is" || r == "cw_source" || r == "is_instance_of"
  }

  /** How often a relation of the system source has a row from a new entity of this type to `t`. */
  function SourceRows(md: Metadata, etype: EType, r: RType, t: Eid): nat {
    if r == "is" then if t == md.eidOf(etype) then 1 else 0
    else if r == "cw_source" then if t == md.source then 1 else 0
    else if exists c <- md.Lineage(etype) :: md.eidOf(c) == t then 1 else 0
  }

  /** A new entity gets one `is` row, one `cw_source` row, and one `is_instance_of` row for each class that it is
      an instance of, and no other rows in these tables. */
  lemma EachMetadataOnce(md: Metadata, etype: EType, t: Eid)
    requires GoodMetadata(md, etype)
    ensures Times(md.Relations(etype), "is", t) == if t == md.eidOf(etype) then 1 else 0
    ensures Times(md.Relations(etype), "cw_source", t) == if t == md.source then 1 else 0
    ensures Times(md.Relations(etype), "is_instance_of", t) == if exists c <- md.Lineage(etype) ::
              md.eidOf(c) == t then 1 else 0
  {
    var two := [("cw_source", md.source), ("is", md.eidOf(etype))];
    var classes := md.InstanceOf(md.Lineage(etype));
    assert md.Relations(etype) == md.base(etype) + two + classes;
    forall r | OfSource(r)
      ensures Times(md.Relations(etype), r, t) == Times(two, r, t) + Times(classes, r, t)
    {
      TimesOfConcat(md.base(etype) + two, classes, r, t);
      TimesOfConcat(md.base(etype), two, r, t);
      TimesOfOthers(md.base(etype), r, t);
    }
    TimesOfOthers(classes, "is", t);
    TimesOfOthers(classes, "cw_source", t);
    TimesInstanceOf(md, md.Lineage(etype), t);
  }

  lemma TimesOfMore(meta: seq<(RType, Eid)>, i: nat, eids: seq<Eid>)
    requires i < |meta|
    ensures forall r: RType, e: Eid, t: Eid :: multiset(eids)[e] * Times(meta[..i + 1], r, t)
                              == multiset(eids)[e] * Times(meta[..i], r, t)
                                + if (r, t) == meta[i] then multiset(eids)[e] else 0
  {
    assert meta[..i + 1] == meta[..i] + [meta[i]];
    forall r: RType, e: Eid, t: Eid
      ensures multiset(eids)[e] * Times(meta[..i + 1], r, t)
              == multiset(eids)[e] * Times(meta[..i], r, t) + if (r, t) == meta[i] then multiset(eids)[e] else 0
    {
      assert Times(meta[..i + 1], r, t) == Times(meta[..i], r, t) + if (r, t) == meta[i] then 1 else 0;
    }
  }

  lemma {:induction false} DistinctIs(eids: seq<Eid>)
    ensures Distinct(eids) <==> forall e :: multiset(eids)[e] <= 1
  {
    if eids != [] {
      var before, last := eids[..|eids| - 1], eids[|eids| - 1];
      DistinctIs(before);
      assert eids == before + [last];
      assert forall e :: multiset(eids)[e] == multiset(before)[e] + if e == last then 1 else 0;
      assert last in before <==> multiset(before)[last] > 0;
      if last in before {
        var i :| 0 <= i < |before| && before[i] == last;
        assert eids[i] == eids[|eids| - 1];
      } else {
        assert forall i | 0 <= i < |before| :: before[i] in before && eids[i] == before[i];
        assert Distinct(eids) <==> Distinct(before);
      }
    }
  }

  // ----- several stores and their tables together

  /** The tables of entities have no eid in common, and no eid twice. */
  ghost predicate Apart(staged: seq<Staged>) {
    && (forall k | 0 <= k < |staged| :: Distinct(staged[k].eids))
    && forall j, k, e | 0 <= j < k < |staged| :: !(e in staged[j].eids && e in staged[k].eids)
  }

  lemma {:induction false} FirstIsOnly(staged: seq<Staged>, k: nat, e: Eid)
    requires Apart(staged) && k < |staged| && e in staged[k].eids
    ensures FirstOf(staged, e) == Some(staged[k])
  {
    var n := |staged| - 1;
    if k < n {
      assert staged[..n][k] == staged[k];
      FirstIsOnly(staged[..n], k, e);
    } else if FirstOf(staged[..n], e).Some? {
      FirstIsTable(staged[..n], e);
    }
  }

  lemma {:induction false} FirstIsTable(staged: seq<Staged>, e: Eid)
    requires FirstOf(staged, e).Some?
    ensures exists k | 0 <= k < |staged| :: staged[k] == FirstOf(staged, e).value && e in staged[k].eids
  {
    var n := |staged| - 1;
    if FirstOf(staged[..n], e).Some? {
      FirstIsTable(staged[..n], e);
      var k :| 0 <= k < n && staged[..n][k] == FirstOf(staged[..n], e).value && e in staged[..n][k].eids;
      assert staged[k] == staged[..n][k];
    }
  }

  /** Tables that are apart are never refused. */
  lemma ApartIsUnrepeated(staged: seq<Staged>, entities0: map<Eid, EType>)
    requires Apart(staged)
    ensures Unrepeated(staged, entities0)
  {
    forall e: Eid | FirstOf(staged, e).Some?
      ensures multiset(FirstOf(staged, e).value.eids)[e] == 1
    {
      FirstIsTable(staged, e);
      var k :| 0 <= k < |staged| && staged[k] == FirstOf(staged, e).value && e in staged[k].eids;
      DistinctIs(staged[k].eids);
    }
  }

  lemma {:induction false} RowsOfApart(staged: seq<Staged>, etype: EType, e: Eid)
    requires Apart(staged)
    ensures StagedRows(staged, etype)[e]
            == if exists k | 0 <= k < |staged| :: staged[k].etype == etype && e in staged[k].eids then 1 else 0
  {
    if staged != [] {
      var n := |staged| - 1;
      RowsOfApart(staged[..n], etype, e);
      DistinctIs(staged[n].eids);
      assert e in staged[n].eids <==> multiset(staged[n].eids)[e] > 0;
      if k :| 0 <= k < n && staged[..n][k].etype == etype && e in staged[..n][k].eids {
        assert staged[k] == staged[..n][k];
      }
      if k :| 0 <= k < n && staged[k].etype == etype && e in staged[k].eids {
        assert staged[k] == staged[..n][k];
      }
    }
  }

  method Pick<T(==)>(s: set<T>) returns (x: T)
    requires s != {}
    ensures x in s
  {
    x :| x in s;
  }

  /** The eids of one table, each once. */
  ghost predicate OwnedBy(eids: seq<Eid>, owner: map<Eid, (nat, EType)>, key: (nat, EType)) {
    Distinct(eids) && forall e :: e in eids <==> e in owner && owner[e] == key
  }

  lemma OneMoreOwned(eids: seq<Eid>, owner: map<Eid, (nat, EType)>, key: (nat, EType), eid: Eid, to: (nat, EType))
    requires OwnedBy(eids, owner, key) && eid !in owner
    ensures OwnedBy(if key == to then eids + [eid] else eids, owner[eid := to], key)
  {
    assert eid !in eids;
  }

  /** A master and its slaves: stores with generators on one sequence. */
  class Import {
    const sequence: EidSequence
    var stores: seq<Store>
    /** The store and the type that each new eid was given to. */
    ghost var owner: map<Eid, (nat, EType)>

    /** Every eid that was handed out was prepared once, for one type, in one store. */
    ghost predicate Valid()
      reads this, sequence, sequence.generators, stores
    {
      && sequence.Valid()
      && (forall s <- stores :: s.Valid() && s.generator in sequence.generators && s.generator.range > 0)
      && Distinct(stores)
      && (forall e :: e in owner <==> e in sequence.handed)
      && (forall e <- owner :: owner[e].0 < |stores|)
      && forall i, etype | 0 <= i < |stores| :: Owns(i, etype)
    }

    ghost predicate Owns(i: nat, etype: EType)
      requires i < |stores|
      reads this, stores
    {
      OwnedBy(Of(stores[i].prepared, etype), owner, (i, etype))
    }

    constructor (start: nat)
      ensures Valid() && fresh(sequence) && sequence.start == start && stores == [] && owner == map[]
    {
      sequence := new EidSequence(start);
      stores, owner := [], map[];
    }

    /** One more store; `range` is the number of eids that it reserves at a time. */
    method AddStore(range: nat)
      requires Valid() && range > 0
      modifies this`stores, sequence`generators
      ensures Valid() && |stores| == |old(stores)| + 1 && old(stores) <= stores && owner == old(owner)
    {
      var generator := new EidGenerator(sequence, range);
      var s := new Store(generator);
      stores := stores + [s];
      forall i, etype | 0 <= i < |stores|
        ensures Owns(i, etype)
      {
        assert i < |old(stores)| ==> old(Owns(i, etype));
      }
    }

    /** `prepare_insert_entity` of the store `i`. */
    method Prepare(i: nat, etype: EType) returns (eid: Eid)
      requires Valid() && i < |stores|
      modifies this`owner, stores[i], stores[i].generator, sequence`last, sequence`handed
      ensures Valid() && eid !in old(owner) && eid > sequence.start && owner == old(owner)[eid := (i, etype)]
    {
      var s := stores[i];
      assert s in stores && s.generator.sequence == sequence;
      hide OwnedBy, EidSequence.Valid, Store.Valid;
      eid := s.PrepareInsertEntity(etype, None);
      owner := owner[eid := (i, etype)];
      forall j, t | 0 <= j < |stores|
        ensures Owns(j, t)
      {
        assert old(Owns(j, t));
        assert j != i ==> stores[j] != s;
        OneMoreOwned(old(Of(stores[j].prepared, t)), old(owner), (j, t), eid, (i, etype));
      }
    }

    /** `flush` of the store `i`. */
    method Flush(i: nat)
      requires Valid() && i < |stores|
      modifies stores[i]
      ensures Valid() && Flushed(stores[i]) && (forall s <- stores :: s != stores[i] ==> unchanged(s))
      ensures stores[i].prepared == old(stores[i].prepared)
    {
      stores[i].FlushEntities();
      forall j, t | 0 <= j < |stores|
        ensures Owns(j, t)
      {
        assert old(Owns(j, t));
      }
    }

    /** The tables that were staged, in any order. */
    method Tables() returns (staged: seq<Staged>)
      requires Valid() && forall s <- stores :: Flushed(s)
      ensures Holding(staged, owner)
    {
      var all := set i, etype | 0 <= i < |stores| && etype in stores[i].tables :: (i, etype);
      var todo := all;
      ghost var keys: seq<(nat, EType)> := [];
      staged := [];
      while todo != {}
        invariant |staged| == |keys| && Distinct(keys) && todo + Elements(keys) == all && todo !! Elements(keys)
        invariant forall k | 0 <= k < |keys| :: TableOfStore(staged[k], keys[k])
      {
        var key := Pick(todo);
        assert key in all;
        staged := staged + [Staged(key.1, stores[key.0].tables[key.1])];
        keys := keys + [key];
        todo := todo - {key};
      }
      TablesHold(staged, keys);
    }

    ghost predicate TableOfStore(s: Staged, key: (nat, EType))
      reads this, stores
    {
      key.0 < |stores| && s == Staged(key.1, Of(stores[key.0].tables, key.1))
    }

    lemma TablesHold(staged: seq<Staged>, keys: seq<(nat, EType)>)
      requires Valid() && (forall s <- stores :: Flushed(s)) && |staged| == |keys| && Distinct(keys)
      requires forall k | 0 <= k < |keys| :: TableOfStore(staged[k], keys[k])
      requires Elements(keys) == set i, etype | 0 <= i < |stores| && etype in stores[i].tables :: (i, etype)
      ensures Holding(staged, owner)
    {
      forall k | 0 <= k < |staged|
        ensures OwnedBy(staged[k].eids, owner, keys[k]) && staged[k].etype == keys[k].1
      {
        assert TableOfStore(staged[k], keys[k]) && Owns(keys[k].0, keys[k].1) && Flushed(stores[keys[k].0]);
      }
      forall e | e in owner
        ensures exists k :: 0 <= k < |staged| && e in staged[k].eids
      {
        var key := owner[e];
        assert Owns(key.0, key.1) && Flushed(stores[key.0]);
        assert e in Of(stores[key.0].tables, key.1) && key in Elements(keys);
        var k :| 0 <= k < |keys| && keys[k] == key;
        assert TableOfStore(staged[k], keys[k]);
      }
    }

    /** `finish`, when all stores were flushed. */
    method Finish(db: Database, relations: seq<StagedRelation>, md: Metadata) returns (ok: bool)
      requires Valid() && (forall s <- stores :: Flushed(s)) && Untouched(db, sequence.start)
      requires forall e <- owner :: GoodMetadata(md, owner[e].1)
      modifies db
      ensures ok && Imported(db, owner, relations, md)
      ensures forall e :: e in db.entities <==> e in old(db.entities) || e in owner
    {
      var staged := Tables();
      forall e | e in owner
        ensures e > sequence.start
      {
        var i :| 0 <= i < |sequence.handed| && sequence.handed[i] == e;
      }
      ok := FinishAll(db, staged, owner, sequence.start, relations, md);
    }
  }

  /** Nothing is left in memory. */
  ghost predicate Flushed(s: Store)
    reads s
  {
    forall etype :: Of(s.tables, etype) == Of(s.prepared, etype)
  }

  /** The tables are apart, and hold the eids with the types that they were given to. */
  ghost predicate Holding(staged: seq<Staged>, owner: map<Eid, (nat, EType)>) {
    && Apart(staged)
    && (forall k, e | 0 <= k < |staged| && e in staged[k].eids :: e in owner && owner[e].1 == staged[k].etype)
    && forall e <- owner :: exists k :: 0 <= k < |staged| && e in staged[k].eids
  }

  /** The database has nothing of the eids after `start` yet. */
  ghost predicate Untouched(db: Database, start: nat)
    reads db
  {
    && (forall e <- db.entities :: e <= start)
    && (forall etype, e | e > start :: RowsOf(db.rows, etype)[e] == 0)
    && forall r, e, t | e > start && OfSource(r) :: TableOf(db.rels, r)[(e, t)] == 0
  }

  lemma HoldingRows(staged: seq<Staged>, owner: map<Eid, (nat, EType)>, e: Eid, etype: EType)
    requires Holding(staged, owner) && e in owner
    ensures FirstOf(staged, e).Some? && FirstOf(staged, e).value.etype == owner[e].1
    ensures StagedRows(staged, etype)[e] == if etype == owner[e].1 then 1 else 0
  {
    var k :| 0 <= k < |staged| && e in staged[k].eids;
    FirstIsOnly(staged, k, e);
    RowsOfApart(staged, etype, e);
  }

  lemma HeldIsOwned(staged: seq<Staged>, owner: map<Eid, (nat, EType)>, e: Eid)
    requires Holding(staged, owner)
    ensures FirstOf(staged, e).Some? <==> e in owner
    ensures e in owner ==> FirstOf(staged, e).value.etype == owner[e].1
  {
    if FirstOf(staged, e).Some? {
      FirstIsTable(staged, e);
    }
    if e in owner {
      HoldingRows(staged, owner, e, owner[e].1);
    }
  }

  /** The rows of an eid that a store gave to an entity of this type: one in the table of the type. */
  ghost predicate OneRow(rows: map<EType, multiset<Eid>>, e: Eid, etype: EType) {
    forall other :: RowsOf(rows, other)[e] == if other == etype then 1 else 0
  }

  /** Its rows in the relations of the system source, unless the import staged such a row itself. */
  ghost predicate SourceRowsOnce(rels: map<RType, multiset<Pair>>, e: Eid, etype: EType,
                                 relations: seq<StagedRelation>, md: Metadata) {
    forall r, t | OfSource(r) && !IsStaged(relations, r, (e, t)) ::
      TableOf(rels, r)[(e, t)] == SourceRows(md, etype, r, t)
  }

  /** What the database has of the eids that the stores were given. */
  ghost predicate Imported(db: Database, owner: map<Eid, (nat, EType)>, relations: seq<StagedRelation>, md: Metadata)
    reads db
  {
    forall e <- owner ::
      && e in db.entities && db.entities[e] == owner[e].1
      && OneRow(db.rows, e, owner[e].1) && SourceRowsOnce(db.rels, e, owner[e].1, relations, md)
  }

  lemma RowIsOnly(staged: seq<Staged>, owner: map<Eid, (nat, EType)>, e: Eid, before: map<EType, multiset<Eid>>,
                  after: map<EType, multiset<Eid>>)
    requires Holding(staged, owner) && e in owner && RowsStaged(before, after, staged)
    requires forall etype :: RowsOf(before, etype)[e] == 0
    ensures OneRow(after, e, owner[e].1)
  {
    forall other
      ensures RowsOf(after, other)[e] == if other == owner[e].1 then 1 else 0
    {
      HoldingRows(staged, owner, e, other);
    }
  }

  lemma SourceRowIsDue(staged: seq<Staged>, owner: map<Eid, (nat, EType)>, e: Eid, entities0: map<Eid, EType>,
                       md: Metadata, r: RType, t: Eid)
    requires Holding(staged, owner) && e in owner && e !in entities0 && GoodMetadata(md, owner[e].1) && OfSource(r)
    ensures Due(staged, entities0, md, r, e, t) == SourceRows(md, owner[e].1, r, t)
  {
    HoldingRows(staged, owner, e, owner[e].1);
    SourceRowsOf(md, owner[e].1, r, t);
  }

  lemma SourceRowsOf(md: Metadata, etype: EType, r: RType, t: Eid)
    requires GoodMetadata(md, etype) && OfSource(r)
    ensures Times(md.Relations(etype), r, t) == SourceRows(md, etype, r, t)
  {
    EachMetadataOnce(md, etype, t);
    hide GoodMetadata, Times;
  }

  /** `finish`: whatever the order of the tables, it succeeds, and every entity of every store has one row in the table
      of its type and none in others, one in the entities table with its type, one `is` and one `cw_source` row, and one
      `is_instance_of` row for each of its classes. */
  method FinishAll(db: Database, staged: seq<Staged>, ghost owner: map<Eid, (nat, EType)>, ghost start: nat,
                   relations: seq<StagedRelation>, md: Metadata) returns (ok: bool)
    requires Holding(staged, owner) && Untouched(db, start)
               && forall e <- owner :: e > start && GoodMetadata(md, owner[e].1)
    modifies db
    ensures ok && Imported(db, owner, relations, md)
    ensures forall e :: e in db.entities <==> e in old(db.entities) || e in owner
  {
    assert Apart(staged);
    ApartIsUnrepeated(staged, db.entities);
    ghost var entities0, rels0, rows0 := db.entities, db.rels, db.rows;
    hide Due, Holding, RowsStaged, IsStaged, FirstOf, GoodMetadata, OneRow, SourceRows, OfSource;
    ok := db.Finish(staged, relations, md);
    forall e
      ensures FirstOf(staged, e).Some? <==> e in owner
      ensures e in owner ==> FirstOf(staged, e).value.etype == owner[e].1
    {
      HeldIsOwned(staged, owner, e);
    }
    forall e | e in owner
      ensures OneRow(db.rows, e, owner[e].1) && SourceRowsOnce(db.rels, e, owner[e].1, relations, md)
    {
      RowIsOnly(staged, owner, e, rows0, db.rows);
      forall r: RType, t: Eid | OfSource(r) && !IsStaged(relations, r, (e, t))
        ensures TableOf(db.rels, r)[(e, t)] == SourceRows(md, owner[e].1, r, t)
      {
        assert TableOf(rels0, r)[(e, t)] == 0;
        assert db.Count(r, e, t) == Due(staged, entities0, md, r, e, t);
        SourceRowIsDue(staged, owner, e, entities0, md, r, t);
      }
      assert SourceRowsOnce(db.rels, e, owner[e].1, relations, md);
    }
  }
}
