/** The in-memory metadata cache: a map of entries and a list of keys, oldest use first. */
module MemoryCache {
  import opened Wrappers
  import opened Digraph

  datatype CacheKey = CacheKey(text: string)

  function MakeKey(category: string, name: string, version: string): CacheKey {
    CacheKey(category + "/" + name + "-" + version)
  }

  /** Cached metadata. Times are numbers; an unset time is None. */
  datatype Entry = Entry(category: string, name: string, version: string, ebuildMtime: int, cachedAt: Option<int>, metadata: string) {
    function Key(): CacheKey { MakeKey(category, name, version) }

    /** What is stored: the time of caching is filled in if it is unset. */
    function Stamped(now: int): Entry {
      if cachedAt == None then this.(cachedAt := Some(now)) else this
    }
  }

  datatype CacheError = NotFound | InvalidEntry

  /** The state of the cache as a value. */
  datatype Cache = Cache(maxEntries: nat, entries: map<CacheKey, Entry>, order: seq<CacheKey>, hits: nat, misses: nat)

  // ----- the operations on values -----

  function RemoveFirst(order: seq<CacheKey>, key: CacheKey): seq<CacheKey> {
    if order == [] then []
    else if order[0] == key then order[1..]
    else [order[0]] + RemoveFirst(order[1..], key)
  }

  function MoveToEnd(order: seq<CacheKey>, key: CacheKey): seq<CacheKey> {
    RemoveFirst(order, key) + [key]
  }

  /** Every stored key is listed. This much survives interleaved lookups and touches. */
  ghost predicate Covered(c: Cache) {
    c.maxEntries > 0 && c.entries.Keys <= Elems(c.order)
  }

  /** Covered and within bounds: what always holds. */
  ghost predicate Bounded(c: Cache) {
    Covered(c) && |c.entries| <= c.maxEntries
  }

  function EvictOldest(c: Cache): Cache {
    if c.order == [] then c else c.(order := c.order[1..], entries := c.entries - {c.order[0]})
  }

  ghost function MakeRoom(c: Cache): (r: Cache)
    requires Covered(c)
    ensures Covered(r) && |r.entries| < r.maxEntries == c.maxEntries
    ensures r.entries.Keys <= c.entries.Keys && r.hits == c.hits && r.misses == c.misses
    ensures forall k :: k in r.entries ==> r.entries[k] == c.entries[k]
    decreases |c.order|
  {
    if |c.entries| < c.maxEntries then c
    else
      RoomCanBeMade(c);
      MakeRoom(EvictOldest(c))
  }

  lemma RoomCanBeMade(c: Cache)
    requires Covered(c) && |c.entries| >= c.maxEntries
    ensures c.order != [] && Covered(EvictOldest(c))
  {
    assert |c.entries| == |c.entries.Keys|;
    var k :| k in c.entries.Keys;
    assert k in c.order;
    assert c.order == [c.order[0]] + c.order[1..];
  }

  ghost function Put(c: Cache, entry: Entry, now: int): Cache
    requires Covered(c)
  {
    var key := entry.Key();
    if key in c.entries then
      c.(entries := c.entries[key := entry.Stamped(now)], order := MoveToEnd(c.order, key))
    else
      var r := MakeRoom(c);
      r.(entries := r.entries[key := entry.Stamped(now)], order := r.order + [key])
  }

  /** The second half of a hit: only the order and the counter change. */
  function Touch(c: Cache, key: CacheKey): Cache {
    c.(order := MoveToEnd(c.order, key), hits := c.hits + 1)
  }

  function Get(c: Cache, key: CacheKey): Cache {
    if key in c.entries then Touch(c, key) else c.(misses := c.misses + 1)
  }

  function Delete(c: Cache, key: CacheKey): Cache {
    if key in c.entries then c.(entries := c.entries - {key}, order := RemoveFirst(c.order, key)) else c
  }

  /** Which entries Invalidate removes: by prefix of the key, not by package. */
  predicate Stale(key: CacheKey, entry: Entry, category: string, name: string, mtime: int) {
    && category + "/" + name + "-" <= key.text
    && entry.ebuildMtime < mtime
  }

  function StaleKeys(c: Cache, category: string, name: string, mtime: int): set<CacheKey> {
    set k | k in c.entries && Stale(k, c.entries[k], category, name, mtime)
  }

  /** Removes the first occurrence of every key of `keys`. */
  function RemoveKeys(order: seq<CacheKey>, keys: set<CacheKey>): seq<CacheKey> {
    if order == [] then []
    else if order[0] in keys then RemoveKeys(order[1..], keys - {order[0]})
    else [order[0]] + RemoveKeys(order[1..], keys)
  }

  function WithoutKeys(c: Cache, keys: set<CacheKey>): Cache {
    c.(entries := c.entries - keys, order := RemoveKeys(c.order, keys))
  }

  function Invalidate(c: Cache, category: string, name: string, mtime: int): Cache {
    WithoutKeys(c, StaleKeys(c, category, name, mtime))
  }

  function InvalidateAll(c: Cache): Cache {
    Cache(c.maxEntries, map[], [], 0, 0)
  }

  // ----- what RemoveFirst and RemoveKeys leave -----

  lemma {:induction false} RemoveFirstKeeps(order: seq<CacheKey>, key: CacheKey, k: CacheKey)
    requires k in order && k != key
    ensures k in RemoveFirst(order, key)
  {
    if order[0] != key && order[0] != k {
      RemoveFirstKeeps(order[1..], key, k);
    }
  }

  lemma {:induction false} RemoveKeysKeeps(order: seq<CacheKey>, keys: set<CacheKey>, k: CacheKey)
    requires k in order && k !in keys
    ensures k in RemoveKeys(order, keys)
  {
    if order[0] in keys {
      RemoveKeysKeeps(order[1..], keys - {order[0]}, k);
    } else if order[0] != k {
      RemoveKeysKeeps(order[1..], keys, k);
    }
  }

  /** Removing keys one by one comes to the same in any order. */
  lemma {:induction false} RemoveOneMore(order: seq<CacheKey>, keys: set<CacheKey>, k: CacheKey)
    requires k !in keys
    ensures RemoveFirst(RemoveKeys(order, keys), k) == RemoveKeys(order, keys + {k})
  {
    if order != [] {
      if order[0] in keys {
        assert (keys + {k}) - {order[0]} == (keys - {order[0]}) + {k};
        RemoveOneMore(order[1..], keys - {order[0]}, k);
      } else if order[0] == k {
        assert (keys + {k}) - {k} == keys;
        var rest := RemoveKeys(order[1..], keys);
        assert ([k] + rest)[1..] == rest;
      } else {
        RemoveOneMore(order[1..], keys, k);
        var rest := RemoveKeys(order[1..], keys);
        assert ([order[0]] + rest)[1..] == rest;
      }
    }
  }

  lemma {:induction false} RemoveNothing(order: seq<CacheKey>)
    ensures RemoveKeys(order, {}) == order
  {
    if order != [] {
      RemoveNothing(order[1..]);
    }
  }

  lemma WithoutOneMore(c: Cache, keys: set<CacheKey>, k: CacheKey)
    requires k !in keys
    ensures var w := WithoutKeys(c, keys);
            WithoutKeys(c, keys + {k}) == w.(entries := w.entries - {k}, order := RemoveFirst(w.order, k))
  {
    RemoveOneMore(c.order, keys, k);
    assert c.entries - (keys + {k}) == (c.entries - keys) - {k};
  }

  lemma WithoutIsBounded(c: Cache, keys: set<CacheKey>)
    requires Bounded(c)
    ensures Bounded(WithoutKeys(c, keys))
  {
    forall k | k in c.entries && k !in keys ensures k in RemoveKeys(c.order, keys) {
      RemoveKeysKeeps(c.order, keys, k);
    }
    FewerEntries(c.entries, keys);
  }

  // ----- the cache object -----

  class MemoryCache {
    const maxEntries: nat
    var entries: map<CacheKey, Entry>
    var order: seq<CacheKey>
    var hits: nat
    var misses: nat

    ghost function View(): Cache
      reads this
    {
      Cache(maxEntries, entries, order, hits, misses)
    }

    ghost predicate Valid()
      reads this
    {
      Bounded(View())
    }

    constructor (limit: int)
      ensures Valid()
      ensures View() == Cache(if limit <= 0 then 100000 else limit, map[], [], 0, 0)
    {
      maxEntries := if limit <= 0 then 100000 else limit;
      entries := map[];
      order := [];
      hits := 0;
      misses := 0;
    }

    /** Get's first critical section. */
    method LookupEntry(key: CacheKey) returns (found: Option<Entry>)
      modifies this`misses
      ensures found == if key in entries then Some(entries[key]) else None
      ensures View() == old(View()).(misses := old(misses) + if key in entries then 0 else 1)
    {
      if key !in entries {
        misses := misses + 1;
        return None;
      }
      return Some(entries[key]);
    }

    /** Get's second critical section, and the counter after it. It may come when the key
        is gone. */
    method TouchKey(key: CacheKey)
      requires Valid()
      modifies this`order, this`hits
      ensures Valid() && View() == Touch(old(View()), key)
    {
      MoveKeyToEnd(key);
      hits := hits + 1;
    }

    method Lookup(category: string, name: string, version: string) returns (r: Result<Entry, CacheError>)
      requires Valid()
      modifies this
      ensures Valid()
      ensures var key := MakeKey(category, name, version);
              && View() == Get(old(View()), key)
              && r == (if key in old(entries) then Ok(old(entries[key])) else Err(NotFound))
              && entries == old(entries)
              && hits == old(hits) + (if r.Ok? then 1 else 0) && misses == old(misses) + (if r.Ok? then 0 else 1)
    {
      var key := MakeKey(category, name, version);
      var found := LookupEntry(key);
      if found == None {
        return Err(NotFound);
      }
      TouchKey(key);
      return Ok(found.value);
    }

    method Store(entry: Option<Entry>, now: int) returns (r: Result<(), CacheError>)
      requires Valid()
      modifies this
      ensures Valid()
      ensures entry == None ==> r == Err(InvalidEntry) && View() == old(View())
      ensures entry.Some? ==> r.Ok? && View() == Put(old(View()), entry.value, now)
    {
      if entry == None {
        return Err(InvalidEntry);
      }
      var entryCopy := entry.value.Stamped(now);
      var key := entryCopy.Key();
      ghost var before := View();
      if key in entries {
        entries := entries[key := entryCopy];
        MoveKeyToEnd(key);
        return Ok(());
      }
      while |entries| >= maxEntries
        invariant Covered(View()) && MakeRoom(View()) == MakeRoom(before)
        decreases |order|
      {
        RoomCanBeMade(View());
        EvictKey();
      }
      entries := entries[key := entryCopy];
      order := order + [key];
      return Ok(());
    }

    /** Stores entries up to the first nil one. */
    method StoreBatch(batch: seq<Option<Entry>>, now: int) returns (r: Result<(), CacheError>)
      requires Valid()
      modifies this
      ensures Valid() && View() == PutAll(old(View()), batch, now)
      ensures r == if forall i :: 0 <= i < |batch| ==> batch[i].Some? then Ok(()) else Err(InvalidEntry)
    {
      var i := 0;
      while i < |batch|
        invariant i <= |batch| && Valid()
        invariant forall j :: 0 <= j < i ==> batch[j].Some?
        invariant PutAll(View(), batch[i..], now) == PutAll(old(View()), batch, now)
      {
        var e := Store(batch[i], now);
        if e.Err? {
          return e;
        }
        assert batch[i..][1..] == batch[i + 1..];
        i := i + 1;
      }
      return Ok(());
    }

    method Remove(category: string, name: string, version: string)
      requires Valid()
      modifies this
      ensures Valid() && View() == Delete(old(View()), MakeKey(category, name, version))
    {
      var key := MakeKey(category, name, version);
      if key !in entries {
        return;
      }
      ghost var before := View();
      DropKey(key);
      forall k | k in entries ensures k in order {
        RemoveFirstKeeps(before.order, key, k);
      }
      assert |entries| <= |before.entries| by { FewerEntries(before.entries, {key}); }
    }

    /** The stale keys are found and removed in no particular order. */
    method RemoveStale(category: string, name: string, mtime: int)
      requires Valid()
      modifies this
      ensures Valid() && View() == Invalidate(old(View()), category, name, mtime)
    {
      hide StaleKeys, WithoutKeys, Bounded;
      WithoutIsBounded(View(), StaleKeys(View(), category, name, mtime));
      var keysToDelete := StaleKeys(Cache(maxEntries, entries, order, hits, misses), category, name, mtime);
      DropKeys(keysToDelete);
    }

    /** Removes keys one at a time, in no particular order. */
    method DropKeys(keys: set<CacheKey>)
      modifies this`entries, this`order
      ensures View() == WithoutKeys(old(View()), keys)
    {
      hide RemoveKeys, RemoveFirst;
      ghost var before := View();
      ghost var gone: set<CacheKey> := {};
      var rest := keys;
      RemoveNothing(order);
      while rest != {}
        invariant rest <= keys && gone == keys - rest
        invariant View() == WithoutKeys(before, gone)
        decreases rest
      {
        var key :| key in rest;
        WithoutOneMore(before, gone, key);
        DropKey(key);
        rest := rest - {key};
        gone := gone + {key};
      }
      assert gone == keys;
    }

    method DropKey(key: CacheKey)
      modifies this`entries, this`order
      ensures View() == old(View()).(entries := old(entries) - {key}, order := RemoveFirst(old(order), key))
    {
      entries := entries - {key};
      RemoveKeyFromOrder(key);
    }

    method RemoveAll()
      modifies this
      ensures View() == InvalidateAll(old(View()))
      ensures entries == map[] && order == [] && hits == 0 && misses == 0
    {
      entries := map[];
      order := [];
      hits := 0;
      misses := 0;
    }

    method MoveKeyToEnd(key: CacheKey)
      modifies this`order
      ensures order == MoveToEnd(old(order), key)
      ensures old(Covered(View())) ==> Covered(View())
    {
      RemoveKeyFromOrder(key);
      order := order + [key];
      forall k | k in old(order) ensures k in order {
        if k != key {
          RemoveFirstKeeps(old(order), key, k);
        }
      }
    }

    method RemoveKeyFromOrder(key: CacheKey)
      modifies this`order
      ensures order == RemoveFirst(old(order), key)
    {
      var i := 0;
      while i < |order|
        invariant i <= |order| && order == old(order)
        invariant RemoveFirst(order, key) == order[..i] + RemoveFirst(order[i..], key)
      {
        if order[i] == key {
          assert order[i..][1..] == order[i + 1..];
          order := order[..i] + order[i + 1..];
          return;
        }
        assert order[i..][1..] == order[i + 1..];
        assert order[..i] + ([order[i]] + RemoveFirst(order[i + 1..], key)) == order[..i + 1] + RemoveFirst(order[i + 1..], key);
        i := i + 1;
      }
      assert order[i..] == [];
    }

    method EvictKey()
      modifies this`order, this`entries
      ensures View() == EvictOldest(old(View()))
    {
      if |order| == 0 {
        return;
      }
      var oldest := order[0];
      order := order[1..];
      entries := entries - {oldest};
    }
  }

  lemma FewerEntries(m: map<CacheKey, Entry>, keys: set<CacheKey>)
    ensures |m - keys| <= |m|
  {
    SubsetSize((m - keys).Keys, m.Keys);
    assert |m| == |m.Keys| && |m - keys| == |(m - keys).Keys|;
  }

  ghost function PutAll(c: Cache, batch: seq<Option<Entry>>, now: int): Cache
    requires Covered(c)
    decreases |batch|
  {
    if batch == [] || batch[0] == None then c
    else
      PutKeepsBounds(c, batch[0].value, now);
      PutAll(Put(c, batch[0].value, now), batch[1..], now)
  }

  lemma PutKeepsBounds(c: Cache, entry: Entry, now: int)
    requires Covered(c)
    ensures Covered(Put(c, entry, now))
    ensures Bounded(c) || entry.Key() !in c.entries ==> Bounded(Put(c, entry, now))
  {
    var key := entry.Key();
    if key in c.entries {
      forall k | k in c.order ensures k in MoveToEnd(c.order, key) {
        if k != key {
          RemoveFirstKeeps(c.order, key, k);
        }
      }
      var c' := Put(c, entry, now);
      assert c'.entries.Keys == c.entries.Keys;
      assert |c'.entries| == |c'.entries.Keys| && |c.entries| == |c.entries.Keys|;
    }
  }
}
