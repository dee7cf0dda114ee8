/** `QueryCache`: a bounded cache that counts the reads of its keys. Keys that are read often stay, the others make
    room. */
module QueryCaches {
  import opened Wrappers

  const MAX_LEVEL := 15

  /** What happens to a cache. */
  datatype Event<K, V> = Read(k: K) | Store(k: K, v: V) | Forget(k: K) | ForgetAll

  predicate Resets<K(==), V>(e: Event<K, V>, k: K) {
    e == ForgetAll || e == Forget(k)
  }

  /** How often `k` was read since it was last forgotten. */
  function Reads<K(==), V>(trace: seq<Event<K, V>>, k: K): nat {
    if trace == [] then 0
    else
      var e, before := trace[|trace| - 1], trace[..|trace| - 1];
      if e == Read(k) then Reads(before, k) + 1
      else if Resets(e, k) then 0
      else Reads(before, k)
  }

  /** The value that was last stored for `k`, unless it was forgotten since. */
  function Stored<K(==), V>(trace: seq<Event<K, V>>, k: K): Option<V> {
    if trace == [] then None
    else
      var e, before := trace[|trace| - 1], trace[..|trace| - 1];
      if e.Store? && e.k == k then Some(e.v)
      else if Resets(e, k) then None
      else Stored(before, k)
  }

  lemma OneMore<K, V>(trace: seq<Event<K, V>>, e: Event<K, V>)
    ensures forall k :: Reads(trace + [e], k) == if e == Read(k) then Reads(trace, k) + 1 else if Resets(e, k) then 0
              else Reads(trace, k)
    ensures forall k :: Stored(trace + [e], k) ==
                if e.Store? && e.k == k then Some(e.v) else if Resets(e, k) then None else Stored(trace, k)
  {
    assert (trace + [e])[..|trace|] == trace;
  }

  /** However reads of `k` and anything else that does not forget it are mixed, they add up. */
  lemma {:induction false} ReadsAddUp<K, V>(trace: seq<Event<K, V>>, more: seq<Event<K, V>>, k: K)
    requires forall e <- more :: !Resets(e, k)
    ensures Reads(trace + more, k) == Reads(trace, k) + Reads(more, k)
  {
    if more == [] {
      assert trace + more == trace;
    } else {
      ReadsAddUp(trace, more[..|more| - 1], k);
      assert (trace + more)[..|trace + more| - 1] == trace + more[..|more| - 1];
    }
  }

  // ----- the structures of the cache, and what happened to it

  /** A key is counted from its first read to the sixteenth, and permanent from the seventeenth on. */
  ghost predicate Counted<K(!new), V>(permanent: set<K>, transient: map<K, nat>, trace: seq<Event<K, V>>) {
    && (forall k :: k in permanent <==> Reads(trace, k) > MAX_LEVEL + 1)
    && (forall k :: k in transient <==> 1 <= Reads(trace, k) <= MAX_LEVEL + 1)
    && (forall k <- transient :: transient[k] == Reads(trace, k))
  }

  /** Every value in the cache is the last one stored for its key. */
  ghost predicate Kept<K, V>(data: map<K, V>, trace: seq<Event<K, V>>) {
    forall k <- data :: Stored(trace, k) == Some(data[k])
  }

  function Bound(max: int): nat {
    if max < 1 then 1 else max
  }

  lemma CountedRead<K(!new), V>(permanent: set<K>, transient: map<K, nat>, trace: seq<Event<K, V>>, k: K)
    requires Counted(permanent, transient, trace)
    ensures k in permanent ==> Counted(permanent, transient, trace + [Read(k)])
    ensures k !in permanent && k !in transient ==> Counted(permanent, transient[k := 1], trace + [Read(k)])
    ensures k in transient && transient[k] > MAX_LEVEL ==> Counted(permanent + {k}, transient - {k}, trace + [Read(k)])
    ensures k in transient && transient[k] <= MAX_LEVEL ==>
              Counted(permanent, transient[k := transient[k] + 1], trace + [Read(k)])
  {
    OneMore(trace, Read(k));
  }

  lemma CountedForget<K(!new), V>(permanent: set<K>, transient: map<K, nat>, trace: seq<Event<K, V>>, k: K)
    requires Counted(permanent, transient, trace)
    ensures Counted(permanent - {k}, transient - {k}, trace + [Forget(k)])
    ensures k !in permanent ==> Counted(permanent, transient - {k}, trace + [Forget(k)])
    ensures k in permanent ==> transient - {k} == transient
  {
    OneMore(trace, Forget(k));
  }

  lemma CountedStore<K(!new), V>(permanent: set<K>, transient: map<K, nat>, trace: seq<Event<K, V>>, k: K, v: V)
    requires Counted(permanent, transient, trace)
    ensures Counted(permanent, transient, trace + [Store(k, v)])
  {
    OneMore(trace, Store(k, v));
  }

  lemma KeptMore<K, V>(data: map<K, V>, trace: seq<Event<K, V>>, e: Event<K, V>)
    requires Kept(data, trace)
    ensures e.Read? ==> Kept(data, trace + [e])
    ensures e.Forget? ==> Kept(data - {e.k}, trace + [e])
    ensures e.Store? ==> Kept(data[e.k := e.v], trace + [e])
  {
    OneMore(trace, e);
  }

  lemma DropKey<K, V>(m: map<K, V>, k: K)
    ensures |m - {k}| <= |m|
    ensures k in m ==> |m - {k}| == |m| - 1
  {
    assert (m - {k}).Keys == m.Keys - {k};
  }

  /** The least used keys go first. */
  predicate Least<K>(k: K, counts: map<K, nat>) {
    k in counts && forall j <- counts :: counts[k] <= counts[j]
  }

  lemma SomeLeast<K>(counts: map<K, nat>) returns (k: K)
    requires counts != map[]
    ensures Least(k, counts)
    decreases |counts|
  {
    var j :| j in counts;
    var rest := counts - {j};
    assert rest.Keys == counts.Keys - {j};
    if rest == map[] {
      assert forall i <- counts :: i !in rest ==> i == j;
      k := j;
    } else {
      assert |rest.Keys| < |counts.Keys|;
      k := SomeLeast(rest);
      assert forall i <- counts :: i == j || i in rest;
      if counts[j] < counts[k] {
        k := j;
      }
    }
  }

  /** What making room leaves: keys only lose their values or their counts; permanent keys lose neither;
      a key that loses its count was not read more often than one that keeps it. */
  ghost predicate Fewer<K, V>(permanent: set<K>, transient: map<K, nat>, data: map<K, V>, transient0: map<K, nat>,
                              data0: map<K, V>) {
    && (forall k <- data :: k in data0 && data[k] == data0[k])
    && (forall k <- permanent :: k in data0 ==> k in data)
    && (forall k <- transient :: k in transient0 && transient[k] == transient0[k])
    && (forall j, k | j in transient0 && j !in transient && k in transient :: transient0[j] <= transient[k])
  }

  lemma FewerWithoutCounts<K, V>(permanent: set<K>, data: map<K, V>, data1: map<K, V>, transient0: map<K, nat>,
                                 data0: map<K, V>)
    requires Fewer(permanent, map[], data1, transient0, data0)
    requires forall k <- data :: k in data1 && data[k] == data1[k]
    requires forall k <- permanent :: k in data1 ==> k in data
    ensures Fewer(permanent, map[], data, transient0, data0)
  {
  }

  /** Nothing happened in between but that keys were forgotten. */
  ghost predicate OnlyForgets<K, V>(before: seq<Event<K, V>>, after: seq<Event<K, V>>) {
    before <= after && forall i | |before| <= i < |after| :: after[i].Forget? || after[i].ForgetAll?
  }

  lemma OneMoreForgotten<K, V>(before: seq<Event<K, V>>, after: seq<Event<K, V>>, e: Event<K, V>)
    requires OnlyForgets(before, after) && (e.Forget? || e.ForgetAll?)
    ensures OnlyForgets(before, after + [e])
  {
  }

  // ----- how much is taken away: keys of one count after the other, until more than a tenth is gone

  /** The keys that went were counted, and not read more often than those that are left. */
  ghost predicate TakenAway<K, V>(permanent: set<K>, transient: map<K, nat>, data: map<K, V>,
                                  transient0: map<K, nat>, data0: map<K, V>, gone: seq<K>) {
    && data == Without(data0, gone)
    && (forall k <- gone :: k in transient0 && k !in transient && k !in permanent)
    && (forall k <- transient0 :: k in transient || k in gone)
    && (forall k <- transient :: k in transient0 && transient[k] == transient0[k])
    && (forall j, k | j in gone && k in transient :: transient0[j] <= transient[k])
  }

  predicate Enough(size: nat, left: nat) {
    left == 0 || 10 * (size - left) > left
  }

  function Without<K, V>(data: map<K, V>, gone: seq<K>): map<K, V> {
    if gone == [] then data else Without(data, gone[..|gone| - 1]) - {gone[|gone| - 1]}
  }

  /** The count of the last key that went. */
  function LastLevel<K(==)>(gone: seq<K>, counts: map<K, nat>): nat
    requires forall k <- gone :: k in counts
  {
    if gone == [] then 0 else counts[gone[|gone| - 1]]
  }

  /** The last key that went was read more often than the one before. */
  predicate NewLevel<K(==)>(gone: seq<K>, counts: map<K, nat>)
    requires gone != [] && forall k <- gone :: k in counts
  {
    counts[gone[|gone| - 1]] > LastLevel(gone[..|gone| - 1], counts)
  }

  /** Whenever a key of a new count went, it was not enough yet. */
  predicate NotEnough<K(==), V>(data: map<K, V>, gone: seq<K>, counts: map<K, nat>)
    requires forall k <- gone :: k in counts
  {
    gone == []
    || (NotEnough(data, gone[..|gone| - 1], counts) && (NewLevel(gone, counts) ==>
        !Enough(|data|, |Without(data, gone)|)))
  }

  lemma LastGone<K, V>(data: map<K, V>, gone: seq<K>, k: K)
    ensures (gone + [k])[..|gone + [k]| - 1] == gone && (gone + [k])[|gone + [k]| - 1] == k
    ensures Without(data, gone + [k]) == Without(data, gone) - {k}
  {
    assert (gone + [k])[..|gone + [k]| - 1] == gone;
  }

  lemma TakeOne<K, V>(permanent: set<K>, transient: map<K, nat>, data: map<K, V>, transient0: map<K, nat>,
                      data0: map<K, V>, gone: seq<K>, k: K)
    requires TakenAway(permanent, transient, data, transient0, data0, gone) && Least(k, transient) && k !in permanent
    requires NotEnough(data0, gone, transient0)
    ensures TakenAway(permanent, transient - {k}, data - {k}, transient0, data0, gone + [k])
    ensures (gone + [k])[..|gone + [k]| - 1] == gone
    ensures LastLevel(gone + [k], transient0) == transient[k] >= LastLevel(gone, transient0)
    ensures NewLevel(gone + [k], transient0) <==> transient[k] > LastLevel(gone, transient0)
    ensures NotEnough(data0, gone + [k], transient0) <==>
              (transient[k] > LastLevel(gone, transient0) ==> !Enough(|data0|, |data - {k}|))
  {
    LastGone(data0, gone, k);
  }

  lemma {:induction false} WithoutKeeps<K, V>(data0: map<K, V>, gone: seq<K>)
    ensures forall k :: k in Without(data0, gone) <==> k in data0 && k !in gone
    ensures forall k <- Without(data0, gone) :: Without(data0, gone)[k] == data0[k]
  {
    if gone != [] {
      WithoutKeeps(data0, gone[..|gone| - 1]);
    }
  }

  lemma TakenIsFewer<K, V>(permanent: set<K>, transient: map<K, nat>, data: map<K, V>, transient0: map<K, nat>,
                           data0: map<K, V>, gone: seq<K>)
    requires TakenAway(permanent, transient, data, transient0, data0, gone)
    ensures Fewer(permanent, transient, data, transient0, data0)
  {
    WithoutKeeps(data0, gone);
  }

  class QueryCache<K(!new, ==), V> {
    const max: int
    var permanent: set<K>
    var transient: map<K, nat>
    var data: map<K, V>
    ghost var trace: seq<Event<K, V>>

    ghost predicate Valid()
      reads this
    {
      |data| <= Bound(max) && Counted(permanent, transient, trace) && Kept(data, trace)
    }

    constructor (ceiling: int)
      ensures Valid() && max == ceiling && data == map[] && trace == []
    {
      max := ceiling;
      permanent, transient, data := {}, map[], map[];
      trace := [];
    }

    method Len() returns (n: nat)
      requires Valid()
      ensures n == |data| <= Bound(max)
    {
      n := |data|;
    }

    /** `get` does not count. */
    method Get(k: K, default: V) returns (v: V)
      requires Valid()
      ensures k in data ==> Stored(trace, k) == Some(v)
      ensures k !in data ==> v == default
    {
      v := if k in data then data[k] else default;
    }

    /** `__getitem__`: None is a KeyError. A read of a key that is not there counts all the same. */
    method GetItem(k: K) returns (v: Option<V>)
      requires Valid()
      modifies this
      ensures Valid() && trace == old(trace) + [Read(k)] && data == old(data)
      ensures v == if k in data then Some(data[k]) else None
      ensures k in permanent <==> Reads(old(trace), k) > MAX_LEVEL
      ensures permanent - {k} == old(permanent) - {k} && transient - {k} == old(transient) - {k}
    {
      OneMore(trace, Read(k));
      CountedRead(permanent, transient, trace, k);
      KeptMore(data, trace, Read(k));
      trace := trace + [Read(k)];
      if k !in permanent {
        if k !in transient {
          transient := transient[k := 1];
        } else if transient[k] > MAX_LEVEL {
          permanent := permanent + {k};
          transient := transient - {k};
        } else {
          transient := transient[k := transient[k] + 1];
        }
      }
      v := if k in data then Some(data[k]) else None;
    }

    /** `pop` */
    method Pop(k: K) returns (v: Option<V>)
      requires Valid()
      modifies this
      ensures Valid() && trace == old(trace) + [Forget(k)] && data == old(data) - {k}
      ensures v == if k in old(data) then Some(old(data)[k]) else None
      ensures permanent == old(permanent) - {k} && transient == old(transient) - {k}
    {
      CountedForget(permanent, transient, trace, k);
      KeptMore(data, trace, Forget(k));
      DropKey(data, k);
      trace := trace + [Forget(k)];
      v := if k in data then Some(data[k]) else None;
      data := data - {k};
      if k in permanent {
        permanent := permanent - {k};
      } else {
        transient := transient - {k};
      }
    }

    method Clear()
      requires Valid()
      modifies this
      ensures Valid() && trace == old(trace) + [ForgetAll] && data == map[] && permanent == {} && transient == map[]
    {
      OneMore(trace, ForgetAll);
      trace := trace + [ForgetAll];
      permanent, transient, data := {}, map[], map[];
    }

    /** Eviction of one key by `_try_to_make_room`. */
    method Evict(k: K)
      requires Valid() && k !in permanent
      modifies this
      ensures Valid() && trace == old(trace) + [Forget(k)] && data == old(data) - {k}
      ensures permanent == old(permanent) && transient == old(transient) - {k}
      ensures |data| <= |old(data)| && (k in old(data) ==> |data| < |old(data)|)
    {
      CountedForget(permanent, transient, trace, k);
      KeptMore(data, trace, Forget(k));
      DropKey(data, k);
      trace := trace + [Forget(k)];
      data := data - {k};
      transient := transient - {k};
    }

    /** Takes the least used key away. */
    method EvictLeast() returns (k: K, v: nat)
      requires Valid() && transient != map[]
      modifies this
      ensures Valid() && Least(k, old(transient)) && v == old(transient)[k] && k !in permanent
      ensures permanent == old(permanent) && transient == old(transient) - {k} && data == old(data) - {k}
      ensures |transient| < |old(transient)| && |data| <= |old(data)| && trace == old(trace) + [Forget(k)]
    {
      ghost var _ := SomeLeast(transient);
      k :| k in transient && Least(k, transient);
      v := transient[k];
      DropKey(transient, k);
      Evict(k);
    }

    /** The loop of `_try_to_make_room`: whether it went through all of the counted keys, and what it took away. */
    method EvictSome() returns (all: bool, ghost gone: seq<K>)
      requires Valid()
      modifies this
      ensures Valid() && permanent == old(permanent) && OnlyForgets(old(trace), trace)
      ensures TakenAway(permanent, transient, data, old(transient), old(data), gone)
      ensures all ==> transient == map[] && NotEnough(old(data), gone, old(transient))
      ensures !all ==> gone != [] && NotEnough(old(data), gone[..|gone| - 1], old(transient))
                       && NewLevel(gone, old(transient)) && Enough(|old(data)|, |data|)
    {
      var size := |data|;
      var level: nat := 0;
      gone := [];
      while transient != map[]
        invariant Valid() && permanent == old(permanent) && OnlyForgets(old(trace), trace)
        invariant TakenAway(permanent, transient, data, old(transient), old(data), gone)
        invariant level == LastLevel(gone, old(transient)) && NotEnough(old(data), gone, old(transient))
        decreases |transient|
      {
        hide Counted, Kept, TakenAway, Least, NotEnough, NewLevel, Enough, LastLevel, OnlyForgets;
        ghost var transient0, data0, trace0 := transient, data, trace;
        var k, v := EvictLeast();
        OneMoreForgotten(old(trace), trace0, Forget(k));
        TakeOne(permanent, transient0, data0, old(transient), old(data), gone, k);
        gone := gone + [k];
        if v > level {
          var datalen := |data|;
          if Enough(size, datalen) {
            return false, gone;
          }
          level := v;
        }
      }
      return true, gone;
    }

    /** `_try_to_make_room` */
    method TryToMakeRoom()
      requires Valid() && |data| >= max
      modifies this
      ensures Valid() && (|data| < max || data == map[]) && OnlyForgets(old(trace), trace)
      ensures || (permanent == {} && transient == map[] && data == map[] && |old(permanent)| >= max)
              || (permanent == old(permanent) && Fewer(permanent, transient, data, old(transient), old(data)))
    {
      var all;
      ghost var gone;
      all, gone := EvictSome();
      TakenIsFewer(permanent, transient, data, old(transient), old(data), gone);
      if all && |data| >= max {
        ghost var trace0 := trace;
        if |permanent| >= max {
          Clear();
          OneMoreForgotten(old(trace), trace0, ForgetAll);
        } else {
          ghost var data0 := data;
          DropOthers();
          FewerWithoutCounts(permanent, data, data0, old(transient), old(data));
        }
      }
    }

    /** Drops the values of all keys that are not permanent. */
    method DropOthers()
      requires Valid() && transient == map[] && |permanent| < max
      modifies this
      ensures Valid() && |data| < max
      ensures permanent == old(permanent) && transient == map[] && OnlyForgets(old(trace), trace)
      ensures forall k :: k in data <==> k in old(data) && k in permanent
      ensures forall k <- data :: data[k] == old(data)[k]
    {
      var toDrop := data.Keys - permanent;
      while toDrop != {}
        invariant Valid() && permanent == old(permanent) && transient == map[] && OnlyForgets(old(trace), trace)
        invariant toDrop == data.Keys - permanent
        invariant forall k :: k in old(data) && k in permanent ==> k in data
        invariant forall k <- data :: k in old(data) && data[k] == old(data)[k]
        decreases |toDrop|
      {
        var k :| k in toDrop;
        OneMoreForgotten(old(trace), trace, Forget(k));
        Evict(k);
        toDrop := toDrop - {k};
      }
      assert forall k :: k in data.Keys && k !in permanent ==> k in data.Keys - permanent;
      Smaller(data.Keys, permanent);
    }

    static lemma Smaller(a: set<K>, b: set<K>)
      requires a <= b
      ensures |a| <= |b|
    {
      var rest := b - a;
      assert b == a + rest;
    }

    /** `__setitem__`: `room` is what stays in the cache beside the new value. */
    method SetItem(k: K, v: V) returns (ghost room: map<K, V>)
      requires Valid()
      modifies this
      ensures Valid() && data == room[k := v]
      ensures exists before :: OnlyForgets(old(trace), before) && trace == before + [Store(k, v)]
      ensures |old(data)| < max ==> room == old(data) && permanent == old(permanent) && transient == old(transient)
      ensures |old(data)| >= max ==>
                || (permanent == {} && transient == map[] && room == map[] && |old(permanent)| >= max)
                || (permanent == old(permanent) && Fewer(permanent, transient, room, old(transient), old(data)))
    {
      if |data| >= max {
        TryToMakeRoom();
      }
      room := data;
      assert OnlyForgets(old(trace), trace);
      CountedStore(permanent, transient, trace, k, v);
      KeptMore(data, trace, Store(k, v));
      trace := trace + [Store(k, v)];
      data := data[k := v];
    }
  }
}
