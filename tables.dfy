/**
 * The id-keyed table every service of the book store stands on: EF Core's
 * DbSet (AppDbContext.Books, AppDbContext.Authors) or the repository that
 * wraps one, together with the count of SaveChanges calls made on it.
 */
module Tables {

  import opened Wrappers

  /** Every entity is stored under its own Id, as `id` reads it off the entity. */
  predicate KeysMatchIds<E>(m: map<int, E>, id: E -> int) {
    forall k :: k in m ==> id(m[k]) == k
  }

  /** The entity stored under `key`, or none. */
  function Lookup<E>(rows: map<int, E>, key: int): Option<E> {
    if key in rows then Some(rows[key]) else None
  }

  /** No key occurs twice in `ks`. */
  predicate Distinct(ks: seq<int>) {
    forall i, j :: 0 <= i < j < |ks| ==> ks[i] != ks[j]
  }

  /** A list without repetitions is as long as the set of its elements. */
  lemma {:induction false} DistinctCardinality(ks: seq<int>)
    requires Distinct(ks)
    ensures |set k | k in ks| == |ks|
  {
    if ks != [] {
      var rest := ks[1..];
      assert Distinct(rest) by {
        forall i, j | 0 <= i < j < |rest| ensures rest[i] != rest[j] {
          assert rest[i] == ks[i + 1] && rest[j] == ks[j + 1];
        }
      }
      DistinctCardinality(rest);
      assert ks[0] !in rest by {
        forall i | 0 <= i < |rest| ensures rest[i] != ks[0] {
          assert rest[i] == ks[i + 1];
        }
      }
      assert (set k | k in ks) == (set k | k in rest) + {ks[0]} by {
        forall k ensures k in ks <==> k in rest || k == ks[0] {
          assert ks == [ks[0]] + rest;
        }
      }
    }
  }

  /** A list of every key of `rows` without repetitions, and the entities under them, lists each entity once. */
  lemma Listing<E>(ks: seq<int>, entries: seq<E>, rows: map<int, E>)
    requires |ks| == |entries| && Distinct(ks)
    requires forall i :: 0 <= i < |ks| ==> ks[i] in rows && entries[i] == rows[ks[i]]
    requires forall k :: k in rows ==> k in ks
    ensures |entries| == |rows|
    ensures forall k :: k in rows ==> rows[k] in entries
  {
    DistinctCardinality(ks);
    assert (set j | j in ks) == rows.Keys by {
      forall j ensures j in ks <==> j in rows {
        if j in ks {
          var i :| 0 <= i < |ks| && ks[i] == j;
        }
      }
    }
    forall k | k in rows ensures rows[k] in entries {
      var i :| 0 <= i < |ks| && ks[i] == k;
      assert entries[i] == rows[k];
    }
  }

  /**
   * The projections `r` of a listing, through a `view` whose result names
   * (by `idOf`) the key the entity was stored under, list each stored
   * entity's projection once, and each projection is that of the entity
   * under the key it names.
   */
  lemma ProjectedListing<E, D>(rows: map<int, E>, entries: seq<E>, keys: seq<int>, r: seq<D>, view: E -> D, idOf: D -> int)
    requires |entries| == |rows| && |keys| == |entries| && |r| == |entries|
    requires forall i :: 0 <= i < |keys| ==> keys[i] in rows && entries[i] == rows[keys[i]]
    requires forall k :: k in rows ==> rows[k] in entries
    requires forall i :: 0 <= i < |r| ==> r[i] == view(entries[i])
    requires forall k :: k in rows ==> idOf(view(rows[k])) == k
    ensures |r| == |rows|
    ensures forall i :: 0 <= i < |r| ==> idOf(r[i]) in rows && r[i] == view(rows[idOf(r[i])])
    ensures forall k :: k in rows ==> view(rows[k]) in r
  {
    forall i | 0 <= i < |r| ensures idOf(r[i]) in rows && r[i] == view(rows[idOf(r[i])]) {
      assert r[i] == view(rows[keys[i]]);
      assert idOf(view(rows[keys[i]])) == keys[i];
    }
    forall k | k in rows ensures view(rows[k]) in r {
      var i :| 0 <= i < |entries| && entries[i] == rows[k];
      assert r[i] == view(rows[k]);
    }
  }

  class Table<E> {
    /** The stored entities by key. */
    var rows: map<int, E>
    /** How many times the changes were saved (SaveChanges / Save / SaveAsync). */
    var saves: nat
    /** EF's key generator: the next key it hands out, above every key in use. */
    var nextId: int

    ghost predicate Valid()
      reads this
    {
      && 1 <= nextId
      && forall k :: k in rows ==> 1 <= k < nextId
    }

    /** An empty table whose keys start at 1, as an identity column's do. */
    constructor ()
      ensures Valid() && rows == map[] && saves == 0
    {
      rows := map[];
      saves := 0;
      nextId := 1;
    }

    /** DbSet.Find: the entity under `key`, or none. */
    function Find(key: int): (r: Option<E>)
      reads this
      ensures r.Some? <==> key in rows
      ensures r.Some? ==> r.value == rows[key]
    {
      Lookup(rows, key)
    }

    /**
     * DbSet.ToList: every stored entity once (this model lists them in key
     * order); `keys` names the key each entry was read from, no key twice.
     */
    method All() returns (entries: seq<E>, ghost keys: seq<int>)
      requires Valid()
      ensures |entries| == |rows| && |keys| == |entries| && Distinct(keys)
      ensures forall i :: 0 <= i < |keys| ==> keys[i] in rows && entries[i] == rows[keys[i]]
      ensures forall k :: k in rows ==> rows[k] in entries
    {
      ghost var ks: seq<int> := [];
      entries := [];
      var k := 1;
      while k < nextId
        invariant 1 <= k <= nextId
        invariant |ks| == |entries|
        invariant forall i :: 0 <= i < |ks| ==> ks[i] in rows && ks[i] < k && entries[i] == rows[ks[i]]
        invariant forall i, j :: 0 <= i < j < |ks| ==> ks[i] < ks[j]
        invariant Distinct(ks)
        invariant forall j :: j in rows && j < k ==> j in ks
      {
        if k in rows {
          ks := ks + [k];
          entries := entries + [rows[k]];
        }
        k := k + 1;
      }
      Listing(ks, entries, rows);
      keys := ks;
    }

    /**
     * DbSet.Add followed by key generation: the entity gets a key not in
     * use, and `entity(key)` is the entity with that key written into its Id.
     */
    method Add(entity: int -> E) returns (key: int)
      requires Valid()
      modifies this
      ensures Valid()
      ensures key !in old(rows)
      ensures rows == old(rows)[key := entity(key)]
      ensures saves == old(saves)
    {
      key := nextId;
      rows := rows[key := entity(key)];
      nextId := nextId + 1;
    }

    /** A change to the tracked entity under `key` (EF change tracking of an in-place mutation, or Update). */
    method Write(key: int, e: E)
      requires Valid() && key in rows
      modifies this
      ensures Valid()
      ensures rows == old(rows)[key := e]
      ensures saves == old(saves)
    {
      rows := rows[key := e];
    }

    /** DbSet.Remove: the entity under `key` is gone. */
    method Remove(key: int)
      requires Valid()
      modifies this
      ensures Valid()
      ensures rows == old(rows) - {key}
      ensures saves == old(saves)
    {
      rows := rows - {key};
    }

    /** SaveChanges: recorded as one more save; the rows are already current. */
    method SaveChanges()
      requires Valid()
      modifies this
      ensures Valid()
      ensures rows == old(rows) && saves == old(saves) + 1
    {
      saves := saves + 1;
    }
  }
}
