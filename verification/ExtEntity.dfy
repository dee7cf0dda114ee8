/** `ExtEntity`: the transitional representation of an entity that waits to be imported. */
module ExtEntities {

  type ExtId = string
  type EType = string
  type RType = string
  type Eid = int

  datatype Role = Subject | Object

  /** A key of `values`: a relation type alone, or with the role that the entity plays in it. */
  datatype Key = Plain(rtype: RType) | WithRole(rtype: RType, role: Role)
  {
    function RoleOf(): Role {
      if Plain? then Subject else role
    }
  }

  /** What `values` holds: the set given first, then the one value, then the eid it stands for. */
  datatype Slot = Many(values: set<string>) | One(value: string) | Ref(eid: Eid)
  {
    function Ids(): set<string> {
      match this
      case Many(xs) => xs
      case One(x) => {x}
      case Ref(_) => {}
    }
  }

  type Values = map<Key, Slot>

  datatype Schema = Schema(final: set<RType>, inlined: set<RType>, symmetric: set<RType>)
  {
    /** Attributes are no relations, so they are not inlined ones. */
    ghost predicate Valid() {
      final !! inlined
    }

    /** The keys that stay in `values`: attributes, and inlined relations of the subject. */
    predicate Keeps(k: Key) {
      k.rtype in final || (k.rtype in inlined && k.RoleOf() == Subject)
    }
  }

  type Triple = (ExtId, RType, ExtId)

  /** Attribute values and inlined relations, whatever their representation. */
  ghost function Facts(v: Values, s: Schema): set<(RType, string)> {
    set k, x | k in v && s.Keeps(k) && x in v[k].Ids() :: (k.rtype, x)
  }

  /** The external ids that the inlined relations need. */
  ghost function Needs(v: Values, s: Schema): set<ExtId> {
    set f | f in Facts(v, s) && f.0 in s.inlined :: f.1
  }

  /** The triple that a key and a target of it stand for. */
  function TripleOf(extid: ExtId, k: Key, target: ExtId): Triple {
    if k.RoleOf() == Subject then (extid, k.rtype, target) else (target, k.rtype, extid)
  }

  /** The other relations, subject first. */
  ghost function Relations(extid: ExtId, v: Values, s: Schema): set<Triple> {
    set k, x | k in v && !s.Keeps(k) && x in v[k].Ids() :: TripleOf(extid, k, x)
  }

  /** What `prepare` asserts of its input, and that no relation type is given under two keys. */
  ghost predicate Preparable(v: Values, s: Schema) {
    && (forall k <- v :: v[k].Many? && (s.Keeps(k) ==> |v[k].Ids()| <= 1))
    && (forall k, k' | k in v && k' in v && s.Keeps(k) && k.rtype == k'.rtype && s.Keeps(k') :: k == k')
  }

  /** What it establishes. */
  ghost predicate Prepared(v: Values, s: Schema) {
    forall k <- v :: k.Plain? && s.Keeps(k) && v[k].One?
  }

  /** Inlined relations point to eids. */
  ghost predicate Resolved(v: Values, v0: Values, s: Schema, extid2eid: map<ExtId, Eid>) {
    && v.Keys == v0.Keys
    && forall k <- v :: if k.rtype in s.inlined
                        then v0[k].One? && v0[k].Ids() <= extid2eid.Keys
                             && forall x <- v0[k].Ids() :: v[k] == Ref(extid2eid[x])
                        else v[k] == v0[k]
  }

  class ExtEntity {
    const etype: EType
    const extid: ExtId
    var values: Values
    var schemaSet: bool

    constructor (etype: EType, extid: ExtId, values: Values)
      ensures this.etype == etype && this.extid == extid && this.values == values && !schemaSet
    {
      this.etype, this.extid, this.values, schemaSet := etype, extid, values, false;
    }

    /** `prepare`: nothing is lost between the values that stay and the relations that are returned. */
    method Prepare(schema: Schema) returns (deferred: seq<Triple>)
      requires !schemaSet && Preparable(values, schema)
      modifies this
      ensures schemaSet && Prepared(values, schema)
      ensures Facts(values, schema) == old(Facts(values, schema))
      ensures (set t | t in deferred) == old(Relations(extid, values, schema))
    {
      hide Facts, Relations, TripleOf;
      schemaSet := true;
      deferred := [];
      var todo := values.Keys;
      while todo != {}
        invariant schemaSet && todo <= values.Keys && forall k <- todo :: values[k] == old(values)[k]
        invariant todo <= old(values).Keys
        invariant forall k <- values :: k in todo || (k.Plain? && schema.Keeps(k) && values[k].One?)
        invariant forall k, k' | k in values && k' in todo && schema.Keeps(k) && schema.Keeps(k')
                    && k.rtype == k'.rtype :: k == k'
        invariant Facts(values, schema) == old(Facts(values, schema))
        invariant (set t | t in deferred) + Relations(extid, values, schema) == old(Relations(extid, values, schema))
      {
        var key :| key in todo;
        todo := todo - {key};
        if schema.Keeps(key) {
          var slot := values[key].Ids();
          if slot != {} {
            var value :| value in slot;
            SingletonSet(slot, value);
            KeepValue(extid, values, key, value, schema);
            values := values[Plain(key.rtype) := One(value)];
            if key != Plain(key.rtype) {
              values := values - {key};
            }
          } else {
            DropKey(extid, values, key, schema);
            values := values - {key};
          }
        } else {
          var more := Defer(key, values[key].Ids());
          DropKey(extid, values, key, schema);
          values := values - {key};
          SetOfConcat(deferred, more);
          deferred := deferred + more;
        }
      }
      EmptyRelations(extid, values, schema);
    }

    /** `is_ready`: all the external ids that inlined relations use are known, and then they are replaced. */
    method IsReady(schema: Schema, extid2eid: map<ExtId, Eid>) returns (ready: bool)
      requires schema.Valid() && schemaSet && Prepared(values, schema)
      modifies `values
      ensures ready <==> old(Needs(values, schema)) <= extid2eid.Keys
      ensures if ready then Resolved(values, old(values), schema, extid2eid) else values == old(values)
    {
      var todo := values.Keys;
      while todo != {}
        invariant todo <= values.Keys
        invariant forall k <- values.Keys - todo :: k.rtype in schema.inlined ==> values[k].Ids() <= extid2eid.Keys
      {
        var key :| key in todo;
        todo := todo - {key};
        if key.rtype !in schema.final {
          var target := values[key].value;
          if target !in extid2eid {
            NeedOfKey(values, schema, key, target);
            return false;
          }
        }
      }
      todo := values.Keys;
      while todo != {}
        invariant todo <= values.Keys == old(values).Keys
        invariant forall k <- todo :: values[k] == old(values)[k]
        invariant forall k <- values.Keys - todo ::
                    if k.rtype in schema.inlined then values[k] == Ref(extid2eid[old(values)[k].value])
                    else values[k] == old(values)[k]
      {
        var key :| key in todo;
        todo := todo - {key};
        if key.rtype in schema.inlined {
          values := values[key := Ref(extid2eid[values[key].value])];
        }
      }
      return true;
    }

    method Defer(key: Key, targets: set<ExtId>) returns (deferred: seq<Triple>)
      ensures (set t | t in deferred) == set x | x in targets :: TripleOf(extid, key, x)
    {
      deferred := [];
      var todo := targets;
      while todo != {}
        invariant todo <= targets
        invariant (set t | t in deferred) == set x | x in targets - todo :: TripleOf(extid, key, x)
      {
        var target :| target in todo;
        todo := todo - {target};
        SetOfConcat(deferred, [TripleOf(extid, key, target)]);
        deferred := deferred + [TripleOf(extid, key, target)];
      }
    }
  }

  lemma NeedOfKey(v: Values, s: Schema, k: Key, x: ExtId)
    requires k in v && s.Keeps(k) && k.rtype in s.inlined && x in v[k].Ids()
    ensures x in Needs(v, s)
  {
    assert (k.rtype, x) in Facts(v, s);
  }

  lemma EmptyRelations(extid: ExtId, v: Values, s: Schema)
    requires Prepared(v, s)
    ensures Relations(extid, v, s) == {}
  {
  }

  lemma SetOfConcat<T>(a: seq<T>, b: seq<T>)
    ensures (set t | t in a + b) == (set t | t in a) + (set t | t in b)
  {
  }

  /** A key that keeps no value may go; the relations it stood for go with it. */
  lemma DropKey(extid: ExtId, v: Values, key: Key, s: Schema)
    requires key in v && (s.Keeps(key) ==> v[key].Ids() == {})
    ensures Facts(v - {key}, s) == Facts(v, s)
    ensures Relations(extid, v, s) == Relations(extid, v - {key}, s)
              + if s.Keeps(key) then {} else set x | x in v[key].Ids() :: TripleOf(extid, key, x)
  {
    var w := v - {key};
    forall f | f in Facts(v, s)
      ensures f in Facts(w, s)
    {
      var k, x :| k in v && s.Keeps(k) && x in v[k].Ids() && f == (k.rtype, x);
      assert k in w && x in w[k].Ids();
    }
    forall f | f in Facts(w, s)
      ensures f in Facts(v, s)
    {
      var k, x :| k in w && s.Keeps(k) && x in w[k].Ids() && f == (k.rtype, x);
      assert k in v && x in v[k].Ids();
    }
    forall t | t in Relations(extid, v, s)
      ensures t in Relations(extid, w, s) || (!s.Keeps(key) &&
                  exists x :: x in v[key].Ids() && t == TripleOf(extid, key, x))
    {
      var k, x :| k in v && !s.Keeps(k) && x in v[k].Ids() && t == TripleOf(extid, k, x);
      if k != key {
        assert k in w && x in w[k].Ids();
      }
    }
    forall t | t in Relations(extid, w, s)
      ensures t in Relations(extid, v, s)
    {
      var k, x :| k in w && !s.Keeps(k) && x in w[k].Ids() && t == TripleOf(extid, k, x);
      assert k in v && x in v[k].Ids();
    }
  }

  function Moved(v: Values, key: Key, value: string): Values {
    var w := v[Plain(key.rtype) := One(value)];
    if key == Plain(key.rtype) then w else w - {key}
  }

  /** The one value of a key moves under the plain relation type. */
  lemma KeepValue(extid: ExtId, v: Values, key: Key, value: string, s: Schema)
    requires key in v && s.Keeps(key) && v[key].Ids() == {value}
    requires Plain(key.rtype) in v ==> Plain(key.rtype) == key
    ensures var w := Moved(v, key, value);
            Facts(w, s) == Facts(v, s) && Relations(extid, w, s) == Relations(extid, v, s)
  {
    var p := Plain(key.rtype);
    var w := Moved(v, key, value);
    forall f | f in Facts(v, s)
      ensures f in Facts(w, s)
    {
      var k, x :| k in v && s.Keeps(k) && x in v[k].Ids() && f == (k.rtype, x);
      var k' := if k == key then p else k;
      assert k' in w && s.Keeps(k') && x in w[k'].Ids();
    }
    forall f | f in Facts(w, s)
      ensures f in Facts(v, s)
    {
      var k, x :| k in w && s.Keeps(k) && x in w[k].Ids() && f == (k.rtype, x);
      var k' := if k == p then key else k;
      assert k' in v && s.Keeps(k') && x in v[k'].Ids();
    }
    SameRelations(extid, v, w, s);
  }

  lemma SameRelations(extid: ExtId, v: Values, w: Values, s: Schema)
    requires forall k | !s.Keeps(k) :: (k in v <==> k in w) && (k in v ==> v[k] == w[k])
    ensures Relations(extid, w, s) == Relations(extid, v, s)
  {
    forall t | t in Relations(extid, v, s)
      ensures t in Relations(extid, w, s)
    {
      var k, x :| k in v && !s.Keeps(k) && x in v[k].Ids() && t == TripleOf(extid, k, x);
      assert k in w && x in w[k].Ids();
    }
    forall t | t in Relations(extid, w, s)
      ensures t in Relations(extid, v, s)
    {
      var k, x :| k in w && !s.Keeps(k) && x in w[k].Ids() && t == TripleOf(extid, k, x);
      assert k in v && x in v[k].Ids();
    }
  }

  lemma SingletonSet<T>(s: set<T>, x: T)
    requires x in s && |s| <= 1
    ensures s == {x}
  {
    if y :| y in s && y != x {
      assert {x, y} <= s;
      CardinalityLe({x, y}, s);
    }
  }

  lemma {:induction false} CardinalityLe<T>(a: set<T>, b: set<T>)
    requires a <= b
    ensures |a| <= |b|
  {
    if a != {} {
      var x :| x in a;
      CardinalityLe(a - {x}, b - {x});
    }
  }
}
