/** The least-recently-used cache of manifests with a size budget. */
module ManifestCache {

  import opened Options
  import opened Sorting

  /** A cached manifest: its contents, how large they are and when they were asked for. */
  datatype Entry<T> = Entry(contents: T, size: nat, t: nat)

  /** The total size of the entries of the given keys. */
  ghost function SizeOf<T>(keys: seq<string>, cache: map<string, Entry<T>>): nat
    requires forall k :: k in keys ==> k in cache
  {
    if keys == [] then 0 else cache[keys[0]].size + SizeOf(keys[1..], cache)
  }

  function Removed(keys: seq<string>, key: string): (r: seq<string>)
    ensures forall k :: k in r <==> k in keys && k != key
  {
    if keys == [] then []
    else
      assert keys == [keys[0]] + keys[1..];
      var rest := Removed(keys[1..], key);
      if keys[0] == key then rest else [keys[0]] + rest
  }

  lemma {:induction false} RemovedDistinct(keys: seq<string>, key: string)
    requires Distinct(keys)
    ensures Distinct(Removed(keys, key))
    ensures key !in keys ==> Removed(keys, key) == keys
  {
    if keys != [] {
      RemovedDistinct(keys[1..], key);
      assert keys[0] !in keys[1..];
      assert keys == [keys[0]] + keys[1..];
    }
  }

  /** The list and the map name the same keys, each once. */
  ghost predicate Agree<T>(lru: seq<string>, cache: map<string, Entry<T>>)
  {
    Distinct(lru) && forall k :: k in lru <==> k in cache
  }

  lemma AgreeRemoved<T>(lru: seq<string>, cache: map<string, Entry<T>>, key: string)
    requires Agree(lru, cache)
    ensures Agree(Removed(lru, key), cache - {key})
    ensures SizeOf(Removed(lru, key), cache - {key}) == SizeOf(lru, cache) - if key in cache then cache[key].size else 0
  {
    RemovedDistinct(lru, key);
    SizeRemoved(lru, key, cache);
    SizeSame(Removed(lru, key), cache, cache - {key});
  }

  lemma AgreeAdded<T>(lru: seq<string>, cache: map<string, Entry<T>>, key: string, e: Entry<T>)
    requires Agree(lru, cache) && key !in cache
    ensures Agree(lru + [key], cache[key := e])
    ensures SizeOf(lru + [key], cache[key := e]) == SizeOf(lru, cache) + e.size
  {
    SizeSame(lru, cache, cache[key := e]);
    SizeAppend(lru, [key], cache[key := e]);
    assert SizeOf([key], cache[key := e]) == e.size;
  }

  lemma AgreeEvicted<T>(lru: seq<string>, cache: map<string, Entry<T>>)
    requires Agree(lru, cache) && lru != []
    ensures Agree(lru[1..], cache - {lru[0]})
    ensures SizeOf(lru[1..], cache - {lru[0]}) == SizeOf(lru, cache) - cache[lru[0]].size
  {
    assert lru == [lru[0]] + lru[1..];
    assert forall i :: 0 < i < |lru| ==> lru[i] != lru[0];
    SizeSame(lru[1..], cache, cache - {lru[0]});
  }

  lemma {:induction false} SizeAppend<T>(a: seq<string>, b: seq<string>, cache: map<string, Entry<T>>)
    requires forall k :: k in a + b ==> k in cache
    ensures (forall k :: k in a ==> k in cache) && (forall k :: k in b ==> k in cache)
    ensures SizeOf(a + b, cache) == SizeOf(a, cache) + SizeOf(b, cache)
  {
    assert forall k :: k in a ==> k in a + b;
    assert forall k :: k in b ==> k in a + b;
    if a == [] {
      assert a + b == b;
    } else {
      assert (a + b)[1..] == a[1..] + b;
      SizeAppend(a[1..], b, cache);
    }
  }

  lemma {:induction false} SizeSame<T>(keys: seq<string>, cache: map<string, Entry<T>>, cache': map<string, Entry<T>>)
    requires forall k :: k in keys ==> k in cache && k in cache' && cache[k] == cache'[k]
    ensures SizeOf(keys, cache) == SizeOf(keys, cache')
  {
    if keys != [] {
      SizeSame(keys[1..], cache, cache');
    }
  }

  lemma {:induction false} SizeRemoved<T>(keys: seq<string>, key: string, cache: map<string, Entry<T>>)
    requires Distinct(keys) && forall k :: k in keys ==> k in cache
    ensures SizeOf(keys, cache) == SizeOf(Removed(keys, key), cache) + if key in keys then cache[key].size else 0
  {
    if keys != [] {
      SizeRemoved(keys[1..], key, cache);
      assert keys[0] !in keys[1..];
    }
  }

  class Cache<T> {
    const maxSize: nat
    var totalSize: nat
    var cache: map<string, Entry<T>>
    var lru: seq<string>

    ghost predicate Valid()
      reads this
    {
      && Agree(lru, cache)
      && totalSize == SizeOf(lru, cache)
      && totalSize <= maxSize
    }

    constructor (maxSize: nat)
      ensures Valid() && cache == map[] && this.maxSize == maxSize
    {
      this.maxSize := maxSize;
      totalSize, cache, lru := 0, map[], [];
    }

    /** Look db up and make it the most recently used. */
    method Get(db: string) returns (r: Option<Entry<T>>)
      requires Valid()
      modifies this`lru
      ensures Valid()
      ensures r == if db in cache then Some(cache[db]) else None
      ensures lru == if db in cache then Removed(old(lru), db) + [db] else old(lru)
    {
      hide SizeOf, Distinct;
      if db !in cache {
        return None;
      }
      AgreeRemoved(lru, cache, db);
      AgreeAdded(Removed(lru, db), cache - {db}, db, cache[db]);
      assert (cache - {db})[db := cache[db]] == cache;
      lru := Removed(lru, db) + [db];
      return Some(cache[db]);
    }

    /**
     * Insert an entry. One that exceeds the budget by itself only removes what was cached for db. Otherwise the
     * entry is in the cache, and exactly as many least recently used ones were evicted as the budget demands.
     */
    method Put(db: string, e: Entry<T>)
      requires Valid()
      modifies this
      ensures Valid()
      ensures e.size > maxSize ==> cache == old(cache) - {db} && lru == Removed(old(lru), db)
      ensures e.size <= maxSize ==> db in cache && cache[db] == e
      ensures forall k :: k in cache && k != db ==> k in old(cache) && cache[k] == old(cache)[k]
      ensures e.size <= maxSize ==>
                var all := Removed(old(lru), db) + [db];
                exists n :: 0 <= n < |all| && lru == all[n..] && Minimal(all, n, old(cache)[db := e], maxSize)
    {
      hide SizeOf, Distinct, Removed;
      AgreeRemoved(lru, cache, db);
      if db in cache {
        totalSize := totalSize - cache[db].size;
      }
      lru, cache := Removed(lru, db), cache - {db};
      if e.size <= maxSize {
        Insert(db, e);
        assert old(cache)[db := e] == (old(cache) - {db})[db := e];
      }
    }

    /** Append db and evict from the front. */
    method Insert(db: string, e: Entry<T>)
      requires Valid() && db !in cache && e.size <= maxSize
      modifies this
      ensures Valid() && db in cache && cache[db] == e
      ensures forall k :: k in cache && k != db ==> k in old(cache) && cache[k] == old(cache)[k]
      ensures var all := old(lru) + [db];
              exists n :: 0 <= n < |all| && lru == all[n..] && Minimal(all, n, old(cache)[db := e], maxSize)
    {
      hide Agree, Distinct, SizeOf, Evicted, Minimal, Removed;
      ghost var all, full := lru + [db], cache[db := e];
      Starts(lru, cache, totalSize, maxSize, db, e);
      lru, cache, totalSize := lru + [db], cache[db := e], totalSize + e.size;
      ghost var n := 0;
      while totalSize > maxSize
        invariant Evicted(all, full, n, lru, cache, totalSize, maxSize)
        decreases |lru|
      {
        EvictStep(all, full, n, lru, cache, totalSize, maxSize, db, e);
        totalSize := totalSize - cache[lru[0]].size;
        cache := cache - {lru[0]};
        lru := lru[1..];
        n := n + 1;
      }
      Ends(all, full, n, lru, cache, totalSize, maxSize, db, e);
    }
  }

  /** The first n keys of all are gone. */
  ghost predicate Evicted<T>(
    all: seq<string>, full: map<string, Entry<T>>, n: nat, lru: seq<string>, cache: map<string, Entry<T>>,
    total: int, maxSize: nat)
  {
    && n < |all| && lru == all[n..] && Agree(all, full) && Agree(lru, cache)
    && (forall k :: k in cache ==> k in full && cache[k] == full[k])
    && total == SizeOf(lru, cache) == SizeOf(all[n..], full)
    && (n > 0 ==> SizeOf(all[n - 1..], full) > maxSize)
  }

  /** Keeping all but the first n keys fits the budget, keeping one more does not. */
  ghost predicate Minimal<T>(all: seq<string>, n: nat, cache: map<string, Entry<T>>, maxSize: nat)
  {
    && n < |all|
    && (forall k :: k in all ==> k in cache)
    && SizeOf(all[n..], cache) <= maxSize
    && (n > 0 ==> SizeOf(all[n - 1..], cache) > maxSize)
  }

  /** While the budget is exceeded the entry just put is not the next to be evicted. */
  lemma LastFits<T>(all: seq<string>, n: nat, cache: map<string, Entry<T>>, maxSize: nat)
    requires n < |all| && (forall k :: k in all ==> k in cache) && SizeOf(all[n..], cache) > maxSize
    requires cache[all[|all| - 1]].size <= maxSize
    ensures n + 1 < |all| && all[n..][1..] == all[n + 1..]
    ensures SizeOf(all[n + 1..], cache) + cache[all[n]].size == SizeOf(all[n..], cache)
  {
    assert all[n..][1..] == all[n + 1..];
  }

  lemma Starts<T>(lru: seq<string>, cache: map<string, Entry<T>>, total: nat, maxSize: nat, db: string, e: Entry<T>)
    requires Agree(lru, cache) && total == SizeOf(lru, cache) && db !in cache
    ensures Evicted(lru + [db], cache[db := e], 0, lru + [db], cache[db := e], total + e.size, maxSize)
  {
    AgreeAdded(lru, cache, db, e);
    assert (lru + [db])[0..] == lru + [db];
  }

  lemma EvictStep<T>(
    all: seq<string>, full: map<string, Entry<T>>, n: nat, lru: seq<string>, cache: map<string, Entry<T>>,
    total: int, maxSize: nat,
    db: string, e: Entry<T>)
    requires Evicted(all, full, n, lru, cache, total, maxSize) && total > maxSize
    requires all[|all| - 1] == db && full == full[db := e] && e.size <= maxSize
    ensures |lru| > 0 && lru[0] in cache && total >= cache[lru[0]].size
    ensures Evicted(all, full, n + 1, lru[1..], cache - {lru[0]}, total - cache[lru[0]].size, maxSize)
  {
    hide SizeOf, Distinct;
    assert full[db] == e;
    LastFits(all, n, full, maxSize);
    AgreeEvicted(lru, cache);
  }

  lemma Ends<T>(
    all: seq<string>, full: map<string, Entry<T>>, n: nat, lru: seq<string>, cache: map<string, Entry<T>>,
    total: int, maxSize: nat,
    db: string, e: Entry<T>)
    requires Evicted(all, full, n, lru, cache, total, maxSize) && total <= maxSize
    requires all[|all| - 1] == db && full == full[db := e]
    ensures db in cache && cache[db] == e && Agree(lru, cache) && Minimal(all, n, full, maxSize)
    ensures n < |all| && lru == all[n..] && total == SizeOf(lru, cache)
    ensures forall k :: k in cache ==> k in full && cache[k] == full[k]
  {
    hide SizeOf, Distinct;
    assert full[db] == e;
    assert all[n..][|all| - n - 1] == db;
  }
}
