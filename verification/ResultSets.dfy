/** `ResultSet`: entities that are built from its rows are kept in the request's cache, and know the row and column that
    they come from. Limiting a result set in place keeps that knowledge right, unless an entity's own result set was
    limited. */
module ResultSets {
  import opened Wrappers

  type Eid = int
  type EType = string

  datatype Error = IndexError | NotAnEntity | AssertionError

  class Entity {
    const eid: Eid
    var rset: ResultSet?
    var row: nat
    var col: nat
    /** What `as_rset` remembers. */
    var own: ResultSet?

    constructor (eid: Eid, rset: ResultSet?, row: nat, col: nat)
      ensures this.eid == eid && this.rset == rset && this.row == row && this.col == col && own == null
    {
      this.eid, this.rset, this.row, this.col, own := eid, rset, row, col, null;
    }

    /** The entity's eid is where the entity says that it is. */
    ghost predicate InPlace()
      reads this, rset
    {
      rset != null ==> Holds(rset.rows, row, col, eid)
    }

    ghost predicate Knows(rsets: set<ResultSet>)
      reads this
    {
      (rset != null ==> rset in rsets) && (own != null ==> own in rsets)
    }
  }

  method AnyOf<T(==)>(s: set<T>) returns (x: T)
    requires s != {}
    ensures x in s
  {
    x :| x in s;
  }

  function Cached(ecache: map<Eid, Entity>): set<Entity> {
    set k | k in ecache :: ecache[k]
  }

  predicate Holds(rows: seq<seq<Option<Eid>>>, row: nat, col: nat, eid: Eid) {
    row < |rows| && col < |rows[row]| && rows[row][col] == Some(eid)
  }

  predicate AllBelow(cols: seq<nat>, n: nat) {
    forall i | 0 <= i < |cols| :: cols[i] < n
  }

  function Columns(n: nat): (cs: set<nat>)
    ensures forall c: nat :: c in cs <==> c < n
  {
    if n == 0 then {} else Columns(n - 1) + {n - 1}
  }

  /** A Python slice with bounds that are not negative. */
  function Slice<T>(s: seq<T>, start: nat, stop: nat): (r: seq<T>)
    ensures |r| == if start >= |s| || start >= stop then 0 else (if stop < |s| then stop else |s|) - start
    ensures forall i | 0 <= i < |r| :: r[i] == s[start + i]
  {
    var hi := if stop < |s| then stop else |s|;
    if start < hi then s[start..hi] else []
  }

  /** Rows that a slice keeps move up by its start. */
  lemma SliceHolds(rows: seq<seq<Option<Eid>>>, start: nat, stop: nat, row: nat, col: nat, eid: Eid)
    requires Holds(rows, row, col, eid) && start <= row < stop
    ensures Holds(Slice(rows, start, stop), row - start, col, eid)
  {
  }

  /** The entity cache of a request, and the result sets that were made for the request. */
  class Request {
    var ecache: map<Eid, Entity>
    ghost var rsets: set<ResultSet>

    ghost predicate Valid()
      reads this, Cached(ecache), rsets
    {
      && (forall r <- rsets :: r.req == this && r.MemoAgrees())
      && (forall k <- ecache :: ecache[k].eid == k && ecache[k].Knows(rsets))
    }

    /** Each cached entity is where it says that it is. */
    ghost predicate AllInPlace()
      reads this, Cached(ecache), set k | k in ecache && ecache[k].rset != null :: ecache[k].rset
    {
      forall k <- ecache :: ecache[k].InPlace()
    }

    constructor ()
      ensures Valid() && ecache == map[] && rsets == {}
    {
      ecache, rsets := map[], {};
    }

    /** `ResultSet(...)`, with `req` set. */
    method NewResultSet(rows: seq<seq<Option<Eid>>>, description: seq<seq<EType>>, final: EType -> bool,
                        related: nat -> seq<nat>)
      returns (r: ResultSet)
      requires Valid()
      modifies this`rsets
      ensures fresh(r) && r.req == this && r.rows == rows && r.description == description && r.memo == map[]
      ensures r.final == final && r.related == related
      ensures Valid() && rsets == old(rsets) + {r}
    {
      r := new ResultSet(this, rows, description, final, related);
      rsets := rsets + {r};
    }

    /** `Entity.as_rset`, which is `@cached`: the same result set each time, whatever became of its rows. */
    method AsRset(e: Entity) returns (r: ResultSet)
      requires Valid() && e in Cached(ecache)
      modifies this`rsets, e`own
      ensures Valid() && e.own == r && r in rsets
      ensures old(e.own) != null ==> r == old(e.own) && rsets == old(rsets)
      ensures old(e.own) == null ==>
                fresh(r) && rsets == old(rsets) + {r} && r.rows == [[Some(e.eid)]] && r.memo == map[]
    {
      if e.own == null {
        r := NewResultSet([[Some(e.eid)]], [[""]], _ => false, _ => []);
        e.own := r;
      } else {
        r := e.own;
      }
    }
  }

  /** An entity that knows where it is stays there, and its own result set stays the same. */
  twostate predicate KeepsPlace(e: Entity)
    reads e
  {
    && (old(e.rset) != null ==> e.rset == old(e.rset) && e.row == old(e.row) && e.col == old(e.col))
    && (old(e.own) != null ==> e.own == old(e.own))
  }

  /** The cache grows: what was cached stays, the rest is new. */
  twostate predicate CacheGrows(new cached: map<Eid, Entity>, before: map<Eid, Entity>) {
    && (forall k <- before :: k in cached && cached[k] == before[k])
    && (forall k <- cached :: k in before || fresh(cached[k]))
  }

  twostate lemma ValuesGrow(new cached: map<Eid, Entity>, before: map<Eid, Entity>)
    requires CacheGrows(cached, before)
    ensures forall v <- Cached(cached) :: v in Cached(before) || fresh(v)
  {
  }

  class ResultSet {
    const req: Request
    /** Types that are not entity types, and the columns that are related to the entity of a column. */
    const final: EType -> bool
    const related: nat -> seq<nat>
    var rows: seq<seq<Option<Eid>>>
    var description: seq<seq<EType>>
    var rowcount: nat
    var memo: map<(nat, nat), Entity>
    var limited: Option<(nat, nat)>

    constructor (req: Request, rows: seq<seq<Option<Eid>>>, description: seq<seq<EType>>, final: EType -> bool,
        related: nat -> seq<nat>)
      ensures this.req == req && this.rows == rows && this.description == description && rowcount == |rows|
      ensures memo == map[] && limited == None && this.final == final && this.related == related
    {
      this.req, this.rows, this.description, this.rowcount := req, rows, description, |rows|;
      this.final, this.related, memo, limited := final, related, map[], None;
    }

    /** What `get_entity` remembers of rows that there still are is what the rows say. */
    ghost predicate MemoAgrees()
      reads this
    {
      rowcount == |rows| && forall p <- memo :: p.0 < |rows| ==> Holds(rows, p.0, p.1, memo[p].eid)
    }

    /** `_make_entity` */
    method MakeEntity(row: nat, col: nat, eid: Eid) returns (e: Entity)
      requires req.Valid() && this in req.rsets && Holds(rows, row, col, eid) && eid !in req.ecache
      modifies req`ecache
      ensures req.Valid() && fresh(e) && e.eid == eid && req.ecache == old(req.ecache)[eid := e]
      ensures e.rset == this && e.row == row && e.col == col && e.own == null
    {
      e := new Entity(eid, this, row, col);
      req.ecache := req.ecache[eid := e];
    }

    /** The first part of `_build_entity`: the cached entity of the eid, which learns where it is if it does not
        know. */
    method CachedEntity(row: nat, col: nat, eid: Eid) returns (e: Entity)
      requires req.Valid() && this in req.rsets && Holds(rows, row, col, eid)
      modifies req`ecache, Cached(req.ecache)
      ensures req.Valid() && e.eid == eid && eid in req.ecache && req.ecache[eid] == e
      ensures req.ecache == old(req.ecache)[eid := e]
      ensures if eid in old(req.ecache) then e == old(req.ecache)[eid] else fresh(e)
      ensures (forall k <- old(req.ecache) :: KeepsPlace(old(req.ecache)[k]))
                && (old(req.AllInPlace()) ==> req.AllInPlace())
      ensures forall k <- old(req.ecache) | k != eid :: unchanged(old(req.ecache)[k])
      ensures (fresh(e) || old(e.rset) == null) ==> e.rset == this && e.row == row && e.col == col
      ensures fresh(e) ==> e.own == null
    {
      if eid in req.ecache {
        e := req.ecache[eid];
        if e.rset == null {
          e.rset, e.row, e.col := this, row, col;
        }
        assert req.ecache == old(req.ecache)[eid := e];
      } else {
        e := MakeEntity(row, col, eid);
      }
    }

    ghost predicate IsNew(e: Entity, row: nat, col: nat)
      reads e
    {
      e.rset == this && e.row == row && e.col == col && e.own == null
    }

    /** `_build_entity`: entities of related columns of the row are built too, each column once. */
    method BuildEntity(row: nat, col: nat, seen: set<nat>) returns (r: Result<Entity, Error>, seen': set<nat>)
      requires req.Valid() && this in req.rsets && row < |rows|
      modifies req, Cached(req.ecache)
      decreases Columns(|rows[row]|) - seen, 1
      ensures req.Valid() && CacheGrows(req.ecache, old(req.ecache)) && old(req.rsets) <= req.rsets
      ensures (forall k <- old(req.ecache) :: KeepsPlace(old(req.ecache)[k]))
                && (old(req.AllInPlace()) ==> req.AllInPlace())
      ensures r.Success? ==>
                Holds(rows, row, col, r.value.eid) && r.value.eid in req.ecache && req.ecache[r.value.eid] == r.value
      ensures r.Success? && fresh(r.value) && |rows[row]| == 1 ==> IsNew(r.value, row, col)
      ensures seen <= seen'
      ensures r == Failure(AssertionError) <==> col < |rows[row]| && rows[row][col] == None
      ensures r == Failure(IndexError) ==> col >= |rows[row]| || !RelatedInRow(row)
      ensures r.Failure? ==> r.error != NotAnEntity
    {
      seen' := seen;
      if col >= |rows[row]| {
        return Failure(IndexError), seen;
      }
      if rows[row][col] == None {
        return Failure(AssertionError), seen;
      }
      var e := CachedEntity(row, col, rows[row][col].value);
      r := Success(e);
      if col !in seen {
        seen' := seen + {col};
        if |rows[row]| > 1 {
          var error;
          error, seen' := BuildRelated(row, related(col), seen', seen, e);
          if error.Some? {
            r := Failure(error.value);
          }
        }
      }
    }

    /** Related columns are columns of the row. */
    ghost predicate RelatedInRow(row: nat)
      requires row < |rows|
      reads this
    {
      forall c :: AllBelow(related(c), |rows[row]|)
    }

    /** The result set of the entity of a related column. */
    method BuildColumn(row: nat, col: nat, seen: set<nat>) returns (error: Option<Error>, seen': set<nat>)
      requires req.Valid() && this in req.rsets && row < |rows| && col < |rows[row]|
      modifies req, Cached(req.ecache)
      decreases Columns(|rows[row]|) - seen, 2
      ensures req.Valid() && CacheGrows(req.ecache, old(req.ecache)) && old(req.rsets) <= req.rsets
      ensures (forall k <- old(req.ecache) :: KeepsPlace(old(req.ecache)[k]))
                && (old(req.AllInPlace()) ==> req.AllInPlace())
      ensures seen <= seen'
      ensures error.Some? ==> error == Some(IndexError) && !RelatedInRow(row)
    {
      error, seen' := None, seen;
      if rows[row][col] == None {
        var _ := req.NewResultSet([], [], final, _ => []);
      } else {
        var sub;
        sub, seen' := BuildEntity(row, col, seen);
        if sub.Failure? {
          return Some(sub.error), seen';
        }
        var _ := req.AsRset(sub.value);
      }
    }

    method BuildRelated(row: nat, cols: seq<nat>, seen0: set<nat>, ghost seen: set<nat>, ghost e: Entity)
      returns (error: Option<Error>, seen': set<nat>)
      requires req.Valid() && this in req.rsets && row < |rows|
      requires Columns(|rows[row]|) - seen0 < Columns(|rows[row]|) - seen
      requires e.eid in req.ecache && req.ecache[e.eid] == e
      modifies req, Cached(req.ecache)
      decreases Columns(|rows[row]|) - seen, 0
      ensures req.Valid() && CacheGrows(req.ecache, old(req.ecache)) && old(req.rsets) <= req.rsets
      ensures (forall k <- old(req.ecache) :: KeepsPlace(old(req.ecache)[k]))
                && (old(req.AllInPlace()) ==> req.AllInPlace())
      ensures e.eid in req.ecache && req.ecache[e.eid] == e
      ensures seen0 <= seen'
      ensures RelatedInRow(row) && AllBelow(cols, |rows[row]|) ==> error == None
      ensures error.Some? ==> error == Some(IndexError)
    {
      error, seen' := None, seen0;
      for i := 0 to |cols|
        invariant req.Valid() && CacheGrows(req.ecache, old(req.ecache)) && old(req.rsets) <= req.rsets
        invariant forall k <- old(req.ecache) :: KeepsPlace(old(req.ecache)[k])
        invariant old(req.AllInPlace()) ==> req.AllInPlace()
        invariant error == None && seen0 <= seen'
      {
        if cols[i] >= |rows[row]| {
          return Some(IndexError), seen';
        }
        ValuesGrow(req.ecache, old(req.ecache));
        error, seen' := BuildColumn(row, cols[i], seen');
        if error.Some? {
          return;
        }
      }
    }

    /** `get_entity`, with what it remembers. */
    method GetEntity(row: nat, col: nat) returns (r: Result<Entity, Error>)
      requires req.Valid() && this in req.rsets
      modifies req, Cached(req.ecache), this`memo
      ensures req.Valid() && CacheGrows(req.ecache, old(req.ecache)) && old(req.rsets) <= req.rsets
      ensures (forall k <- old(req.ecache) :: KeepsPlace(old(req.ecache)[k]))
                && (old(req.AllInPlace()) ==> req.AllInPlace())
      ensures r.Success? && row < |rows| ==> Holds(rows, row, col, r.value.eid)
      ensures r.Success? && (row, col) !in old(memo) ==>
                && r.value.eid in req.ecache && req.ecache[r.value.eid] == r.value
                && (row < |rows| && |rows[row]| == 1 && fresh(r.value) ==> IsNew(r.value, row, col))
      ensures r.Success? ==>
                (row, col) in memo && memo[(row, col)] == r.value && memo - {(row, col)} == old(memo) - {(row, col)}
      ensures r.Failure? ==> memo == old(memo) && (row, col) !in memo
      ensures (row, col) !in old(memo) ==>
                match r
                case Success(e) => row < |rows| && row < |description| && col < |description[row]|
                    && !final(description[row][col])
                case Failure(NotAnEntity) => row < |description| && col < |description[row]|
                    && final(description[row][col])
                case Failure(AssertionError) => row < |rows| && col < |rows[row]| && rows[row][col] == None
                case Failure(IndexError) =>
                  row >= |description| || col >= |description[row]| || row >= |rows| || col >= |rows[row]|
                      || !RelatedInRow(row)
      ensures (row, col) in old(memo) ==> r == Success(old(memo)[(row, col)]) && unchanged(req)
    {
      if (row, col) in memo {
        return Success(memo[(row, col)]);
      }
      if row >= |description| || col >= |description[row]| {
        return Failure(IndexError);
      }
      if final(description[row][col]) {
        return Failure(NotAnEntity);
      }
      if row >= |rows| {
        return Failure(IndexError);
      }
      var seen;
      r, seen := BuildEntity(row, col, {});
      if r.Success? {
        memo := memo[(row, col) := r.value];
      }
    }

    /** `limit` without `inplace`: another result set, and nothing else changes. */
    method Limit(limit: nat, offset: nat) returns (r: ResultSet)
      requires req.Valid() && this in req.rsets
      modifies req`rsets
      ensures fresh(r) && r.req == req && req.Valid() && req.rsets == old(req.rsets) + {r}
      ensures r.rows == Slice(rows, offset, limit + offset)
                && r.description == Slice(description, offset, limit + offset)
      ensures r.memo == if offset == 0 then memo else map[]
      ensures r.limited == Some((limit, offset))
    {
      r := new ResultSet(req, Slice(rows, offset, limit + offset), Slice(description, offset, limit + offset), final,
          related);
      if offset == 0 {
        r.memo := memo;
      }
      r.limited := Some((limit, offset));
      req.rsets := req.rsets + {r};
    }

    /** What an entity of the request cache becomes when this result set is limited in place. */
    twostate predicate Relocated(e: Entity, limit: nat, offset: nat)
      reads e, e.own
    {
      if old(e.rset) != this then unchanged(e)
      else if offset <= old(e.row) < limit + offset then
        e.rset == this && e.row == old(e.row) - offset && e.col == old(e.col) && e.own == old(e.own)
      else
        && e.own != null && e.rset == e.own && e.row == 0 && e.col == 0
        && if old(e.own) != null then e.own == old(e.own) else fresh(e.own) && e.own.rows == [[Some(e.eid)]]
    }

    /** Once this result set has the rows `rows1`, the entity can be moved to a place that has its eid: its row stays,
        or it has no result set of its own yet, or one that still has its eid in the first row. */
    ghost predicate StaysInPlace(e: Entity, rows1: seq<seq<Option<Eid>>>, limit: nat, offset: nat)
      reads e, e.rset, e.own
    {
      if e.rset != this then e.InPlace()
      else if offset <= e.row < limit + offset then Holds(rows1, e.row - offset, e.col, e.eid)
      else e.own == null || Holds(if e.own == this then rows1 else e.own.rows, 0, 0, e.eid)
    }

    ghost predicate AllStay(rows1: seq<seq<Option<Eid>>>, limit: nat, offset: nat)
      reads req, Cached(req.ecache)
      reads set e | e in Cached(req.ecache) && e.rset != null :: e.rset
      reads set e | e in Cached(req.ecache) && e.own != null :: e.own
    {
      forall k <- req.ecache :: StaysInPlace(req.ecache[k], rows1, limit, offset)
    }

    /** Its row goes, and its own result set has lost its row. */
    ghost predicate IsLost(e: Entity, rows1: seq<seq<Option<Eid>>>, limit: nat, offset: nat)
      reads e, e.own
    {
      && e.rset == this && !(offset <= e.row < limit + offset) && e.own != null
      && !Holds(if e.own == this then rows1 else e.own.rows, 0, 0, e.eid)
    }

    /** When all entities are where they say, only entities that are lost count. */
    lemma StayUnlessLost(limit: nat, offset: nat)
      requires req.AllInPlace()
      ensures var rows1 := Slice(rows, offset, limit + offset);
              AllStay(rows1, limit, offset) <==> forall k <- req.ecache :: !IsLost(req.ecache[k], rows1, limit, offset)
    {
      var rows1 := Slice(rows, offset, limit + offset);
      forall k | k in req.ecache
        ensures StaysInPlace(req.ecache[k], rows1, limit, offset) <==> !IsLost(req.ecache[k], rows1, limit, offset)
      {
        var e := req.ecache[k];
        if e.rset == this && offset <= e.row < limit + offset {
          SliceHolds(rows, offset, limit + offset, e.row, e.col, e.eid);
        }
      }
    }

    /** `limit` with `inplace`: entities of rows that stay move with their rows, the others get their own result set.
        They are where they say exactly when no result set that was handed out for one of them has lost its row. */
    method LimitInPlace(limit: nat, offset: nat)
      requires req.Valid() && this in req.rsets
      modifies this, req`rsets, Cached(req.ecache)
      ensures req.Valid() && req.ecache == old(req.ecache) && old(req.rsets) <= req.rsets
      ensures rows == Slice(old(rows), offset, limit + offset)
                && description == Slice(old(description), offset, limit + offset)
      ensures memo == (if offset == 0 then old(memo) else map[]) && limited == Some((limit, offset))
      ensures forall k <- req.ecache :: Relocated(req.ecache[k], limit, offset)
      ensures req.AllInPlace() <==> old(AllStay(Slice(rows, offset, limit + offset), limit, offset))
    {
      Cut(limit, offset);
      RelocateAll(limit, offset);
    }

    /** The rows that stay. */
    method Cut(limit: nat, offset: nat)
      requires req.Valid() && this in req.rsets
      modifies this
      ensures req.Valid()
      ensures rows == Slice(old(rows), offset, limit + offset)
                && description == Slice(old(description), offset, limit + offset)
      ensures memo == (if offset == 0 then old(memo) else map[]) && limited == Some((limit, offset))
      ensures AllStay(rows, limit, offset) == old(AllStay(Slice(rows, offset, limit + offset), limit, offset))
    {
      rows, description := Slice(rows, offset, limit + offset), Slice(description, offset, limit + offset);
      rowcount := |rows|;
      if offset != 0 {
        memo := map[];
      }
      limited := Some((limit, offset));
    }

    /** The loop over the cached entities. */
    method RelocateAll(limit: nat, offset: nat)
      requires req.Valid() && this in req.rsets
      modifies req`rsets, Cached(req.ecache)
      ensures req.Valid() && req.ecache == old(req.ecache) && old(req.rsets) <= req.rsets
      ensures forall k <- req.ecache :: Relocated(req.ecache[k], limit, offset)
      ensures req.AllInPlace() <==> old(AllStay(rows, limit, offset))
    {
      var entities := Cached(req.ecache);
      var todo := entities;
      while todo != {}
        invariant todo <= entities && req.Valid() && old(req.rsets) <= req.rsets
        invariant forall e <- todo :: unchanged(e)
        invariant forall e <- entities | e !in todo :: Relocated(e, limit, offset)
        decreases |todo|
      {
        var e := AnyOf(todo);
        todo := todo - {e};
        Relocate(e, limit, offset);
      }
      forall e | e in entities
        ensures e.InPlace() <==> old(StaysInPlace(e, rows, limit, offset))
      {
        assert Relocated(e, limit, offset);
      }
      assert forall k <- req.ecache :: req.ecache[k] in entities;
    }

    /** One turn of the loop over the cached entities. */
    method Relocate(e: Entity, limit: nat, offset: nat)
      requires req.Valid() && this in req.rsets && e in Cached(req.ecache)
      modifies req`rsets, e
      ensures req.Valid() && old(req.rsets) <= req.rsets && Relocated(e, limit, offset)
    {
      if e.rset == this {
        if offset <= e.row < limit + offset {
          e.row := e.row - offset;
        } else {
          var own := req.AsRset(e);
          e.rset, e.row, e.col := own, 0, 0;
        }
      }
    }
  }

  /** Three rows, and the entity of the last one. */
  method ThirdOfThree() returns (rset: ResultSet, e: Entity)
    ensures fresh(rset) && fresh(rset.req) && fresh(rset.req.rsets) && fresh(Cached(rset.req.ecache))
    ensures rset.req.Valid() && rset in rset.req.rsets && e in Cached(rset.req.ecache) && rset.IsNew(e, 2, 0)
  {
    var req := new Request();
    rset := req.NewResultSet([[Some(1)], [Some(2)], [Some(3)]], [["T"], ["T"], ["T"]], _ => false, _ => []);
    var r := rset.GetEntity(2, 0);
    e := r.value;
    assert req.ecache[e.eid] == e;
  }

  ghost predicate IsLostAt(e: Entity)
    reads e, e.rset
  {
    e.rset != null && e.rset.rows == [] && e.row == 0
  }

  method LimitOwnFirst(rset: ResultSet, e: Entity)
    requires rset.req.Valid() && rset in rset.req.rsets && e.eid in rset.req.ecache && rset.req.ecache[e.eid] == e
               && rset.IsNew(e, 2, 0)
    modifies rset, rset.req`rsets, Cached(rset.req.ecache)
    ensures rset.req.Valid() && rset.req.ecache == old(rset.req.ecache) && IsLostAt(e)
  {
    assert e in Cached(rset.req.ecache);
    var own := EmptyOwn(rset, e);
    label L:
    rset.LimitInPlace(2, 0);
    assert own.rows == old@L(own.rows);
  }

  method EmptyOwn(rset: ResultSet, e: Entity) returns (own: ResultSet)
    requires rset.req.Valid() && rset in rset.req.rsets && e.eid in rset.req.ecache && rset.req.ecache[e.eid] == e
               && rset.IsNew(e, 2, 0)
    modifies rset.req`rsets, Cached(rset.req.ecache)
    ensures rset.req.Valid() && rset in rset.req.rsets && rset.req.ecache == old(rset.req.ecache)
    ensures fresh(own) && own.rows == [] && e.own == own && e.rset == rset && e.row == 2
  {
    assert e in Cached(rset.req.ecache);
    own := rset.req.AsRset(e);
    own.LimitInPlace(0, 0);
  }

  method LimitOwnLast(rset: ResultSet, e: Entity)
    requires rset.req.Valid() && rset in rset.req.rsets && e.eid in rset.req.ecache && rset.req.ecache[e.eid] == e
               && rset.IsNew(e, 2, 0)
    modifies rset, rset.req`rsets, Cached(rset.req.ecache)
    ensures rset.req.Valid() && rset.req.ecache == old(rset.req.ecache) && IsLostAt(e)
  {
    rset.LimitInPlace(2, 0);
    assert e in Cached(rset.req.ecache) && e.rset == e.own && fresh(e.own) && e.own in rset.req.rsets;
    e.rset.LimitInPlace(0, 0);
  }

  /** The entity of the last of three rows. Its own result set is limited before the rows are, or after it was handed
      out: the entity then says that it is in the first row of a result set without rows. */
  method LimitOfOwnResultSet(before: bool) returns (req: Request, e: Entity)
    ensures fresh(req) && req.Valid() && e in Cached(req.ecache) && !req.AllInPlace()
    ensures e.rset != null && e.rset.rows == [] && e.row == 0
  {
    var rset;
    rset, e := ThirdOfThree();
    req := rset.req;
    if before {
      LimitOwnFirst(rset, e);
    } else {
      LimitOwnLast(rset, e);
    }
  }
}
