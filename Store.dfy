/**
 * The keyed record store the worker persists entities in. Its implementation
 * is not part of this model; it is stood in for by the behaviour its callers rely on:
 * one record per id, plus an index listing the ids in insertion order.
 */
module Store {
  import opened Seqs

  /** The records named by `ids`, in that order. */
  function Lookup<T>(records: map<string, T>, ids: seq<string>): (r: seq<T>)
    requires forall k :: k in ids ==> k in records
    ensures |r| == |ids|
    ensures forall i :: 0 <= i < |ids| ==> r[i] == records[ids[i]]
  {
    if |ids| == 0 then [] else [records[ids[0]]] + Lookup(records, ids[1..])
  }

  /** `k => !doomed.has(k)` */
  function Outside(doomed: set<string>): string -> bool {
    k => k !in doomed
  }

  /** Records whose key is not doomed. */
  function KeyOutside<T>(key: T -> string, doomed: set<string>): T -> bool {
    x => key(x) !in doomed
  }

  /** `y => key(y) === key(x) ? x : y`: put `x` in place of the record with its key. */
  function Replacing<T>(key: T -> string, x: T): T -> T {
    y => if key(y) == key(x) then x else y
  }

  /** Every record is stored under its own key. */
  ghost predicate Keyed<T>(key: T -> string, records: map<string, T>) {
    forall k :: k in records ==> key(records[k]) == k
  }

  /** Reading keyed records back by their ids gives those ids as keys. */
  lemma {:induction false} KeysOfLookup<T>(key: T -> string, records: map<string, T>, ids: seq<string>)
    requires forall k :: k in ids ==> k in records
    requires Keyed(key, records)
    ensures Map(key, Lookup(records, ids)) == ids
  {
    var r := Map(key, Lookup(records, ids));
    assert |r| == |ids|;
    forall i | 0 <= i < |ids| ensures r[i] == ids[i] {
      assert ids[i] in records;
    }
  }

  /** Removing ids from the map and the index removes exactly the records with those keys. */
  lemma {:induction false} LookupPrune<T>(key: T -> string, records: map<string, T>, ids: seq<string>, doomed: set<string>)
    requires forall k :: k in ids ==> k in records
    requires Keyed(key, records)
    ensures forall k :: k in Filter(Outside(doomed), ids) ==> k in records - doomed
    ensures Lookup(records - doomed, Filter(Outside(doomed), ids))
         == Filter(KeyOutside(key, doomed), Lookup(records, ids))
  {
    FilterMembers(Outside(doomed), ids);
    if |ids| > 0 {
      assert forall k :: k in ids[1..] ==> k in ids;
      LookupPrune(key, records, ids[1..], doomed);
      var k := ids[0];
      assert key(records[k]) == k;
      var rest := Lookup(records, ids[1..]);
      assert Lookup(records, ids) == [records[k]] + rest;
      if k in doomed {
        assert Filter(Outside(doomed), ids) == Filter(Outside(doomed), ids[1..]);
      } else {
        var kept := Filter(Outside(doomed), ids[1..]);
        assert Filter(Outside(doomed), ids) == [k] + kept;
        assert ([k] + kept)[1..] == kept;
      }
    }
  }

  /** Storing a record under a new id and appending that id extends the lookup by the record. */
  lemma LookupAppend<T>(records: map<string, T>, ids: seq<string>, k: string, x: T)
    requires forall j :: j in ids ==> j in records
    requires k !in ids
    ensures forall j :: j in ids + [k] ==> j in records[k := x]
    ensures Lookup(records[k := x], ids + [k]) == Lookup(records, ids) + [x]
  {
    var r := Lookup(records[k := x], ids + [k]);
    forall i | 0 <= i < |ids| ensures r[i] == Lookup(records, ids)[i] {
      assert (ids + [k])[i] == ids[i] != k;
    }
  }

  lemma DistinctAppend<T>(xs: seq<T>, x: T)
    requires Distinct(xs) && x !in xs
    ensures Distinct(xs + [x])
  {
  }

  lemma DistinctAfter<T>(xs: seq<T>, n: nat)
    requires Distinct(xs) && n < |xs|
    ensures forall i :: n < i < |xs| ==> xs[i] != xs[n]
  {
  }

  lemma TakeNext<T>(prefix: seq<T>, xs: seq<T>, n: nat)
    requires n < |xs|
    ensures prefix + xs[..n + 1] == (prefix + xs[..n]) + [xs[n]]
  {
    assert xs[..n + 1] == xs[..n] + [xs[n]];
  }

  /**
   * One entity type's records: `records` maps each id to its record and
   * `index` lists the ids in the order they were created.
   */
  class IndexedEntity<T> {
    /** The id of a record (`record.id`). */
    const key: T -> string
    var records: map<string, T>
    var index: seq<string>

    /** The index lists each stored id exactly once, and each record sits under its own id. */
    ghost predicate Valid()
      reads this
    {
      && Distinct(index)
      && (forall k :: k in index <==> k in records)
      && Keyed(key, records)
    }

    /** `list()`: every record, in index order. */
    function Items(): (r: seq<T>)
      reads this
      requires Valid()
      ensures Map(key, r) == index
    {
      KeysOfLookup(key, records, index);
      Lookup(records, index)
    }

    constructor (key: T -> string)
      ensures Valid() && this.key == key
      ensures records == map[] && index == []
    {
      this.key := key;
      records := map[];
      index := [];
    }

    method Exists(id: string) returns (b: bool)
      ensures b <==> id in records
    {
      b := id in records;
    }

    /** `getState()` on a record known to exist. */
    method GetState(id: string) returns (x: T)
      requires id in records
      ensures x == records[id]
    {
      x := records[id];
    }

    /** `list()` */
    method List() returns (items: seq<T>)
      requires Valid()
      ensures items == Items()
    {
      items := Lookup(records, index);
    }

    /** `create()`: store a record under its fresh id and append the id to the index. */
    method Create(x: T)
      requires Valid()
      requires key(x) !in records
      modifies this
      ensures Valid()
      ensures records == old(records)[key(x) := x]
      ensures index == old(index) + [key(x)]
      ensures Items() == old(Items()) + [x]
    {
      LookupAppend(records, index, key(x), x);
      DistinctAppend(index, key(x));
      records := records[key(x) := x];
      index := index + [key(x)];
    }

    /** `createMany()`: the same as creating each record in turn. */
    method CreateMany(xs: seq<T>)
      requires Valid()
      requires Distinct(Map(key, xs))
      requires forall i :: 0 <= i < |xs| ==> key(xs[i]) !in records
      modifies this
      ensures Valid()
      ensures index == old(index) + Map(key, xs)
      ensures Items() == old(Items()) + xs
    {
      ghost var ks := Map(key, xs);
      ghost var before := Items();
      var n := 0;
      while n < |xs|
        invariant 0 <= n <= |xs|
        invariant Valid()
        invariant index == old(index) + ks[..n]
        invariant Items() == before + xs[..n]
        invariant forall i :: n <= i < |xs| ==> ks[i] !in records
      {
        TakeNext(old(index), ks, n);
        TakeNext(before, xs, n);
        Create(xs[n]);
        DistinctAfter(ks, n);
        n := n + 1;
      }
      assert ks[..n] == ks;
      assert xs[..n] == xs;
    }

    /** `delete()`: remove the record and its index entry; report whether it existed. */
    method Delete(id: string) returns (existed: bool)
      requires Valid()
      modifies this
      ensures Valid()
      ensures existed <==> id in old(records)
      ensures records == old(records) - {id}
      ensures index == Filter(Outside({id}), old(index))
      ensures Items() == Filter(KeyOutside(key, {id}), old(Items()))
    {
      existed := id in records;
      Remove({id});
    }

    /** `deleteMany()`: remove every listed id; ids not stored are skipped. */
    method DeleteMany(ids: seq<string>)
      requires Valid()
      modifies this
      ensures Valid()
      ensures records == old(records) - (set k | k in ids)
      ensures index == Filter(Outside(set k | k in ids), old(index))
      ensures Items() == Filter(KeyOutside(key, set k | k in ids), old(Items()))
    {
      Remove(set k | k in ids);
    }

    method Remove(doomed: set<string>)
      requires Valid()
      modifies this
      ensures Valid()
      ensures records == old(records) - doomed
      ensures index == Filter(Outside(doomed), old(index))
      ensures Items() == Filter(KeyOutside(key, doomed), old(Items()))
    {
      LookupPrune(key, records, index, doomed);
      FilterMembers(Outside(doomed), index);
      FilterDistinct(Outside(doomed), index);
      records := records - doomed;
      index := Filter(Outside(doomed), index);
    }

    /**
     * `mutate(fn)` (and `patch`, a mutate by a shallow merge): replace a stored
     * record by its image under `f`, which keeps its id.
     */
    method Mutate(id: string, f: T -> T) returns (x: T)
      requires Valid()
      requires id in records && key(f(records[id])) == id
      modifies this
      ensures Valid()
      ensures x == f(old(records)[id])
      ensures records == old(records)[id := x]
      ensures index == old(index)
      ensures Items() == Map(Replacing(key, x), old(Items()))
    {
      ghost var before := Items();
      x := f(records[id]);
      records := records[id := x];
      forall i | 0 <= i < |index| ensures Items()[i] == Map(Replacing(key, x), before)[i] {
        assert key(before[i]) == index[i];
      }
    }

    /** `ensureSeed()`: an empty store receives the seed records, in order; otherwise nothing happens. */
    method EnsureSeed(seed: seq<T>)
      requires Valid()
      requires Distinct(Map(key, seed))
      modifies this
      ensures Valid()
      ensures old(index) == [] ==> Items() == seed && index == Map(key, seed)
      ensures old(index) != [] ==> records == old(records) && index == old(index)
    {
      if |index| == 0 {
        assert records == map[] by {
          assert forall k :: k !in records;
        }
        CreateMany(seed);
      }
    }
  }
}
