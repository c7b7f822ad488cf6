/**
 A map split into shards that are locked one at a time. Alone, every operation acts as on the plain map that is the
 union of the shards; a scan among writers still sees every key that stays and no key that stays away.
 */
module ShardedMap {
  import opened Prelude

  // ---------- The plain map behind the shards ----------

  type Shards<!K, V> = seq<map<K, V>>

  function Home<K(!new)>(hash: K -> nat, count: nat, key: K): nat
    requires count > 0
  {
    hash(key) % count
  }

  /** Every key lies in the shard its hash selects. */
  ghost predicate Placed<K(!new), V>(hash: K -> nat, shards: Shards<K, V>) {
    |shards| > 0 && forall i, k :: 0 <= i < |shards| && k in shards[i] ==> Home(hash, |shards|, k) == i
  }

  /** The union of the first `n` shards. */
  ghost function Union<K, V>(shards: Shards<K, V>, n: nat): map<K, V>
    requires n <= |shards|
  {
    if n == 0 then map[] else Union(shards, n - 1) + shards[n - 1]
  }

  ghost function Whole<K, V>(shards: Shards<K, V>): map<K, V> {
    Union(shards, |shards|)
  }

  lemma {:induction false} UnionHolds<K(!new), V>(hash: K -> nat, shards: Shards<K, V>, n: nat, k: K)
    requires Placed(hash, shards) && n <= |shards|
    ensures var i := Home(hash, |shards|, k);
      && (k in Union(shards, n) <==> i < n && k in shards[i])
      && (k in Union(shards, n) ==> Union(shards, n)[k] == shards[i][k])
    decreases n
  {
    if n > 0 {
      UnionHolds(hash, shards, n - 1, k);
    }
  }

  /** Looking a key up in its shard is looking it up in the plain map. */
  lemma WholeHolds<K(!new), V>(hash: K -> nat, shards: Shards<K, V>, k: K)
    requires Placed(hash, shards)
    ensures var i := Home(hash, |shards|, k);
      (k in Whole(shards) <==> k in shards[i]) && (k in Whole(shards) ==> Whole(shards)[k] == shards[i][k])
  {
    UnionHolds(hash, shards, |shards|, k);
  }

  /** Two well-placed lists of shards that agree on every key are the same plain map. */
  lemma WholeIs<K(!new), V>(hash: K -> nat, shards: Shards<K, V>, m: map<K, V>)
    requires Placed(hash, shards)
    requires forall k :: var i := Home(hash, |shards|, k);
      (k in shards[i] <==> k in m) && (k in m ==> shards[i][k] == m[k])
    ensures Whole(shards) == m
  {
    forall k ensures (k in Whole(shards) <==> k in m) && (k in m ==> Whole(shards)[k] == m[k]) {
      WholeHolds(hash, shards, k);
    }
  }

  /** Storing into the home shard is storing into the plain map. */
  lemma StoreInHome<K(!new), V>(hash: K -> nat, shards: Shards<K, V>, key: K, value: V)
    requires Placed(hash, shards)
    ensures var i := Home(hash, |shards|, key); var shards' := shards[i := shards[i][key := value]];
      Placed(hash, shards') && Whole(shards') == Whole(shards)[key := value]
  {
    var i := Home(hash, |shards|, key);
    var shards' := shards[i := shards[i][key := value]];
    var m := Whole(shards)[key := value];
    forall k ensures var j := Home(hash, |shards'|, k);
      (k in shards'[j] <==> k in m) && (k in m ==> shards'[j][k] == m[k])
    {
      WholeHolds(hash, shards, k);
    }
    WholeIs(hash, shards', m);
  }

  lemma DropFromHome<K(!new), V>(hash: K -> nat, shards: Shards<K, V>, key: K)
    requires Placed(hash, shards)
    ensures var i := Home(hash, |shards|, key); var shards' := shards[i := shards[i] - {key}];
      Placed(hash, shards') && Whole(shards') == Whole(shards) - {key}
  {
    var i := Home(hash, |shards|, key);
    var shards' := shards[i := shards[i] - {key}];
    var m := Whole(shards) - {key};
    forall k ensures var j := Home(hash, |shards'|, k);
      (k in shards'[j] <==> k in m) && (k in m ==> shards'[j][k] == m[k])
    {
      WholeHolds(hash, shards, k);
    }
    WholeIs(hash, shards', m);
  }

  lemma DisjointSizes<K, V>(a: map<K, V>, b: map<K, V>)
    requires a.Keys !! b.Keys
    ensures |a + b| == |a| + |b|
  {
    assert (a + b).Keys == a.Keys + b.Keys;
    assert |a.Keys + b.Keys| == |a.Keys| + |b.Keys|;
  }

  /** No key lies in a shard and in an earlier one. */
  lemma ShardsAreDisjoint<K(!new), V>(hash: K -> nat, shards: Shards<K, V>, n: nat)
    requires Placed(hash, shards) && n < |shards|
    ensures Union(shards, n).Keys !! shards[n].Keys
  {
    forall k | k in Union(shards, n) ensures k !in shards[n] {
      UnionHolds(hash, shards, n, k);
    }
  }

  function TotalSize<K, V>(shards: Shards<K, V>, n: nat): nat
    requires n <= |shards|
  {
    if n == 0 then 0 else TotalSize(shards, n - 1) + |shards[n - 1]|
  }

  ghost function SizeOfUnion<K, V>(shards: Shards<K, V>): nat -> nat {
    (n: nat) => if n <= |shards| then |Union(shards, n)| else 0
  }

  lemma SizesStep<K(!new), V>(hash: K -> nat, shards: Shards<K, V>, n: nat)
    requires Placed(hash, shards) && n < |shards|
    ensures SizeOfUnion(shards)(n + 1) == SizeOfUnion(shards)(n) + |shards[n]|
  {
    ShardsAreDisjoint(hash, shards, n);
    DisjointSizes(Union(shards, n), shards[n]);
  }

  /** Sizes that start at zero and grow by each shard's size are the total. */
  lemma {:induction false} SizesSumUp<K, V>(shards: Shards<K, V>, size: nat -> nat, n: nat)
    requires n <= |shards| && size(0) == 0 && forall m: nat :: m < n ==> size(m + 1) == size(m) + |shards[m]|
    ensures size(n) == TotalSize(shards, n)
    decreases n
  {
    if n > 0 {
      SizesSumUp(shards, size, n - 1);
    }
  }

  /** Shards share no key, so their sizes add up to the size of the plain map. */
  lemma SizesAddUp<K(!new), V>(hash: K -> nat, shards: Shards<K, V>)
    requires Placed(hash, shards)
    ensures |Whole(shards)| == TotalSize(shards, |shards|)
  {
    var size := SizeOfUnion(shards);
    forall m: nat | m < |shards| ensures size(m + 1) == size(m) + |shards[m]| {
      SizesStep(hash, shards, m);
    }
    SizesSumUp(shards, size, |shards|);
  }

  // ---------- The map ----------

  class Map<K(==, !new), V> {
    const hash: K -> nat
    const shardCount: nat
    var shards: Shards<K, V>
    ghost var history: seq<Shards<K, V>>   // the states in which a scan among writers has found the map

    ghost predicate Valid()
      reads this
    {
      shardCount > 0 && |shards| == shardCount && Placed(hash, shards)
    }

    ghost function Contents(): map<K, V>
      reads this
    {
      Whole(shards)
    }

    /** NewMap. Without shards no key would have a place. */
    constructor (hash: K -> nat, shardCount: nat)
      requires shardCount > 0
      ensures Valid() && Contents() == map[] && this.hash == hash && this.shardCount == shardCount
    {
      this.hash, this.shardCount := hash, shardCount;
      shards := seq(shardCount, i => map[]);
      history := [];
      new;
      WholeIs(hash, shards, map[]);
    }

    method Set(key: K, value: V)
      requires Valid()
      modifies this`shards
      ensures Valid() && Contents() == old(Contents())[key := value]
    {
      var i := Home(hash, shardCount, key);
      StoreInHome(hash, shards, key, value);
      shards := shards[i := shards[i][key := value]];
    }

    method Get(key: K) returns (r: Option<V>)
      requires Valid()
      ensures r == if key in Contents() then Some(Contents()[key]) else None
    {
      WholeHolds(hash, shards, key);
      var shard := shards[Home(hash, shardCount, key)];
      r := if key in shard then Some(shard[key]) else None;
    }

    method Remove(key: K)
      requires Valid()
      modifies this`shards
      ensures Valid() && Contents() == old(Contents()) - {key}
    {
      var i := Home(hash, shardCount, key);
      DropFromHome(hash, shards, key);
      shards := shards[i := shards[i] - {key}];
    }

    method Pop(key: K) returns (r: Option<V>)
      requires Valid()
      modifies this`shards
      ensures Valid() && Contents() == old(Contents()) - {key}
      ensures r == if key in old(Contents()) then Some(old(Contents())[key]) else None
    {
      var i := Home(hash, shardCount, key);
      WholeHolds(hash, shards, key);
      DropFromHome(hash, shards, key);
      r := None;
      if key in shards[i] {
        r := Some(shards[i][key]);
        shards := shards[i := shards[i] - {key}];
      }
    }

    /** Upsert; `update` is given what the key holds, if anything. */
    method Upsert(key: K, update: Option<V> -> V) returns (value: V)
      requires Valid()
      modifies this`shards
      ensures value == update(if key in old(Contents()) then Some(old(Contents())[key]) else None)
      ensures Valid() && Contents() == old(Contents())[key := value]
    {
      var i := Home(hash, shardCount, key);
      WholeHolds(hash, shards, key);
      value := update(if key in shards[i] then Some(shards[i][key]) else None);
      StoreInHome(hash, shards, key, value);
      shards := shards[i := shards[i][key := value]];
    }

    method SetIfAbsent(key: K, value: V) returns (stored: V, added: bool)
      requires Valid()
      modifies this`shards
      ensures Valid() && added == (key !in old(Contents()))
      ensures Contents() == if added then old(Contents())[key := value] else old(Contents())
      ensures key in Contents() && stored == Contents()[key]
    {
      var i := Home(hash, shardCount, key);
      WholeHolds(hash, shards, key);
      if key in shards[i] {
        return shards[i][key], false;
      }
      StoreInHome(hash, shards, key, value);
      shards := shards[i := shards[i][key := value]];
      return value, true;
    }

    /** RemoveIfMatch; `same` compares with the expected value. */
    method RemoveIfMatch(key: K, same: V -> bool) returns (removed: bool)
      requires Valid()
      modifies this`shards
      ensures Valid() && removed == (key in old(Contents()) && same(old(Contents())[key]))
      ensures Contents() == if removed then old(Contents()) - {key} else old(Contents())
    {
      var i := Home(hash, shardCount, key);
      WholeHolds(hash, shards, key);
      if key !in shards[i] || !same(shards[i][key]) {
        return false;
      }
      DropFromHome(hash, shards, key);
      shards := shards[i := shards[i] - {key}];
      return true;
    }

    method Clear()
      requires Valid()
      modifies this`shards
      ensures Valid() && Contents() == map[]
    {
      for i := 0 to shardCount
        invariant |shards| == shardCount && forall j :: 0 <= j < i ==> shards[j] == map[]
      {
        shards := shards[i := map[]];
      }
      WholeIs(hash, shards, map[]);
    }

    method Count() returns (count: nat)
      requires Valid()
      ensures count == |Contents()|
    {
      count := 0;
      for i := 0 to shardCount
        invariant count == TotalSize(shards, i)
      {
        count := count + |shards[i]|;
      }
      SizesAddUp(hash, shards);
    }

    /** The data sorted by the shards they belong to. */
    method Batches(data: map<K, V>) returns (batches: Shards<K, V>)
      requires Valid()
      ensures |batches| == shardCount
      ensures forall i, k :: 0 <= i < shardCount ==> (k in batches[i] <==> k in data && Home(hash, shardCount, k) == i)
      ensures forall i, k :: 0 <= i < shardCount && k in batches[i] ==> batches[i][k] == data[k]
    {
      batches := seq(shardCount, i => map[]);
      var left := data.Keys;
      while left != {}
        invariant |batches| == shardCount && left <= data.Keys && Sorted(hash, batches, data, left)
        decreases |left|
      {
        var key :| key in left;
        var i := Home(hash, shardCount, key);
        ghost var before, due := batches, left;
        batches := batches[i := batches[i][key := data[key]]];
        left := left - {key};
        BatchGrows(hash, before, batches, data, due, key);
      }
    }

    /** MSet: the data are sorted into one batch per shard, and each batch is stored at once. */
    method MSet(data: map<K, V>)
      requires Valid()
      modifies this`shards
      ensures Valid() && Contents() == old(Contents()) + data
    {
      var batches := Batches(data);
      ghost var before := shards;
      for i := 0 to shardCount
        invariant |shards| == shardCount
        invariant forall j :: 0 <= j < i ==> shards[j] == before[j] + batches[j]
        invariant forall j :: i <= j < shardCount ==> shards[j] == before[j]
      {
        shards := shards[i := shards[i] + batches[i]];
      }
      BatchesAreStored(hash, before, shards, batches, data);
    }

    // ---------- Among writers ----------

    /** While no shard is locked, writers may do anything that keeps keys where they belong. */
    method Interfere()
      requires Valid()
      modifies this
      ensures Valid() && history == old(history) + [shards]
    {
      var n: nat := *;
      while n > 0
        invariant Valid() && history == old(history)
      {
        var i: nat, shard: map<K, V> := *, *;
        if i < shardCount && forall k :: k in shard ==> Home(hash, shardCount, k) == i {
          shards := shards[i := shard];
        }
        n := n - 1;
      }
      history := history + [shards];
    }

    /** The keys of one shard are appended, in any order. */
    static method KeysOf(shard: map<K, V>, keys0: seq<K>) returns (keys: seq<K>)
      requires Distinct(keys0) && forall k :: k in keys0 ==> k !in shard
      ensures Distinct(keys) && forall k :: k in keys <==> k in keys0 || k in shard
    {
      keys := keys0;
      var left := shard.Keys;
      while left != {}
        invariant left <= shard.Keys && Distinct(keys)
        invariant forall k :: k in keys <==> k in keys0 || (k in shard && k !in left)
        decreases |left|
      {
        var key :| key in left;
        keys := keys + [key];
        left := left - {key};
      }
    }

    /**
     Keys, with writers between any two shards. No key is listed twice, every key present all through the scan is
     listed, and every key listed was present at some moment of it.
     */
    method Keys() returns (keys: seq<K>)
      requires Valid() && history == []
      modifies this
      ensures Valid() && Distinct(keys) && |history| == shardCount
      ensures forall k :: (forall t :: 0 <= t < |history| ==> k in Whole(history[t])) ==> k in keys
      ensures forall k :: k in keys ==> exists t :: 0 <= t < |history| && k in Whole(history[t])
    {
      keys := [];
      for i := 0 to shardCount
        invariant Valid() && |history| == i
        invariant forall t :: 0 <= t < i ==> |history[t]| == shardCount && Placed(hash, history[t])
        invariant Distinct(keys)
        invariant forall k :: k in keys <==> var h := Home(hash, shardCount, k); h < i && k in history[h][h]
      {
        Interfere();
        keys := KeysOf(shards[i], keys);
      }
      forall k ensures var h := Home(hash, shardCount, k); k in Whole(history[h]) <==> k in keys {
        WholeHolds(hash, history[Home(hash, shardCount, k)], k);
      }
    }
  }

  /** All data but what is left have been sorted into the batches. */
  ghost predicate Sorted<K(!new), V>(hash: K -> nat, batches: Shards<K, V>, data: map<K, V>, left: set<K>)
    requires |batches| > 0
  {
    && (forall i, k :: 0 <= i < |batches| ==>
          (k in batches[i] <==> k in data && k !in left && Home(hash, |batches|, k) == i))
    && (forall i, k :: 0 <= i < |batches| && k in batches[i] && k in data ==> batches[i][k] == data[k])
  }

  lemma BatchGrows<K(!new), V>(
    hash: K -> nat, before: Shards<K, V>, after: Shards<K, V>, data: map<K, V>, left: set<K>, key: K)
    requires |before| > 0 && Sorted(hash, before, data, left) && key in left && key in data
    requires var i := Home(hash, |before|, key); after == before[i := before[i][key := data[key]]]
    ensures Sorted(hash, after, data, left - {key})
  {
    var home := Home(hash, |before|, key);
    forall i | 0 <= i < |after| ensures after[i] == if i == home then before[i][key := data[key]] else before[i] {}
  }

  lemma BatchesAreStored<K(!new), V>(
    hash: K -> nat, before: Shards<K, V>, after: Shards<K, V>, batches: Shards<K, V>, data: map<K, V>)
    requires Placed(hash, before) && |after| == |batches| == |before|
    requires forall i :: 0 <= i < |before| ==> after[i] == before[i] + batches[i]
    requires forall i, k :: 0 <= i < |before| ==> (k in batches[i] <==> k in data && Home(hash, |before|, k) == i)
    requires forall i, k :: 0 <= i < |before| && k in batches[i] ==> batches[i][k] == data[k]
    ensures Placed(hash, after) && Whole(after) == Whole(before) + data
  {
    var m := Whole(before) + data;
    forall k ensures var j := Home(hash, |after|, k); (k in after[j] <==> k in m) && (k in m ==> after[j][k] == m[k]) {
      WholeHolds(hash, before, k);
    }
    WholeIs(hash, after, m);
  }
}
