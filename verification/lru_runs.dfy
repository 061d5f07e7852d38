/** Runs of the cache: what always holds when lookups and touches interleave, and the
    stronger facts when every operation is atomic. */
module LruRuns {
  import opened Wrappers
  import opened Digraph
  import opened MemoryCache

  /** One critical section, or an atomic operation. A PutBatch is its Puts. */
  datatype Op = PutOp(entry: Entry, now: int)
              | GetOp(key: CacheKey)
              | LookupOp(key: CacheKey)
              | TouchOp(key: CacheKey)
              | DeleteOp(key: CacheKey)
              | InvalidateOp(category: string, name: string, mtime: int)
              | InvalidateAllOp

  ghost function Apply(c: Cache, op: Op): Cache
    requires Covered(c)
  {
    match op
    case PutOp(entry, now) => Put(c, entry, now)
    case GetOp(key) => Get(c, key)
    case LookupOp(key) => if key in c.entries then c else c.(misses := c.misses + 1)
    case TouchOp(key) => Touch(c, key)
    case DeleteOp(key) => Delete(c, key)
    case InvalidateOp(category, name, mtime) => Invalidate(c, category, name, mtime)
    case InvalidateAllOp => InvalidateAll(c)
  }

  /** A Get is its lookup, and if that finds the key, its touch. */
  lemma GetIsBothSections(c: Cache, key: CacheKey)
    requires Covered(c)
    ensures var looked := Apply(c, LookupOp(key));
            && looked.entries == c.entries && Covered(looked)
            && Apply(c, GetOp(key)) == if key in c.entries then Apply(looked, TouchOp(key)) else looked
    ensures key in c.entries ==> Apply(c, TouchOp(key)).hits == c.hits + 1 && Apply(c, TouchOp(key)).misses == c.misses
    ensures key !in c.entries ==> Apply(c, LookupOp(key)).misses == c.misses + 1 && Apply(c, LookupOp(key)).hits == c.hits
  {
    hide MoveToEnd;
  }

  function Empty(maxEntries: nat): Cache {
    Cache(maxEntries, map[], [], 0, 0)
  }

  lemma TouchBounded(c: Cache, key: CacheKey)
    requires Bounded(c)
    ensures Bounded(Touch(c, key))
  {
    forall k | k in c.order ensures k in MoveToEnd(c.order, key) {
      if k != key {
        RemoveFirstKeeps(c.order, key, k);
      }
    }
  }

  lemma DeleteBounded(c: Cache, key: CacheKey)
    requires Bounded(c)
    ensures Bounded(Delete(c, key))
  {
    forall k | k in c.order && k != key ensures k in RemoveFirst(c.order, key) {
      RemoveFirstKeeps(c.order, key, k);
    }
    FewerEntries(c.entries, {key});
  }

  lemma ApplyBounded(c: Cache, op: Op)
    requires Bounded(c)
    ensures Bounded(Apply(c, op)) && Apply(c, op).maxEntries == c.maxEntries
  {
    hide StaleKeys, RemoveKeys, RemoveFirst;
    match op
    case PutOp(entry, now) => PutKeepsBounds(c, entry, now);
    case GetOp(key) => TouchBounded(c, key);
    case LookupOp(key) =>
    case TouchOp(key) => TouchBounded(c, key);
    case DeleteOp(key) => DeleteBounded(c, key);
    case InvalidateOp(category, name, mtime) => WithoutIsBounded(c, StaleKeys(c, category, name, mtime));
    case InvalidateAllOp =>
  }

  /** The cache after the operations `ops`, in the order in which they took the lock. */
  ghost function Run(maxEntries: nat, ops: seq<Op>): (c: Cache)
    requires maxEntries > 0
    ensures Bounded(c) && c.maxEntries == maxEntries
    decreases |ops|
  {
    if ops == [] then Empty(maxEntries)
    else
      ApplyBounded(Run(maxEntries, ops[..|ops| - 1]), ops[|ops| - 1]);
      Apply(Run(maxEntries, ops[..|ops| - 1]), ops[|ops| - 1])
  }

  /** With lookups and touches interleaved in any way, the bound is kept and every stored key
      is still listed, so eviction always finds one to evict. */
  lemma AlwaysWithinBounds(maxEntries: nat, ops: seq<Op>)
    requires maxEntries > 0
    ensures var c := Run(maxEntries, ops); |c.entries| <= maxEntries && c.entries.Keys <= Elems(c.order)
    ensures var c := Run(maxEntries, ops); |c.entries| >= maxEntries ==> |EvictOldest(c).order| < |c.order|
  {
    var c := Run(maxEntries, ops);
    if |c.entries| >= maxEntries {
      RoomCanBeMade(c);
    }
  }

  lemma RunAppend(maxEntries: nat, ops: seq<Op>, op: Op)
    requires maxEntries > 0
    ensures Run(maxEntries, ops + [op]) == Apply(Run(maxEntries, ops), op)
  {
    assert (ops + [op])[..|ops|] == ops;
  }

  /** Two interleaved calls are enough to list a key twice: its entry is deleted between
      the two halves of a Get, and then stored again. */
  lemma OrderCanRepeat(entry: Entry, now: int)
    ensures var k := entry.Key();
            Run(2, [PutOp(entry, now)] + [LookupOp(k)] + [DeleteOp(k)] + [TouchOp(k)] + [PutOp(entry, now)]).order == [k, k]
  {
    hide Run;
    var k := entry.Key();
    var stored := Empty(2).(entries := map[k := entry.Stamped(now)], order := [k]);
    var ops := [PutOp(entry, now)];
    assert Run(2, ops) == stored by {
      FirstPut(entry, now);
    }
    RunAppend(2, ops, LookupOp(k));
    assert Run(2, ops + [LookupOp(k)]) == stored;
    RunAppend(2, ops + [LookupOp(k)], DeleteOp(k));
    assert Run(2, ops + [LookupOp(k)] + [DeleteOp(k)]) == Empty(2);
    RunAppend(2, ops + [LookupOp(k)] + [DeleteOp(k)], TouchOp(k));
    assert Run(2, ops + [LookupOp(k)] + [DeleteOp(k)] + [TouchOp(k)]) == Empty(2).(order := [k], hits := 1);
    RunAppend(2, ops + [LookupOp(k)] + [DeleteOp(k)] + [TouchOp(k)], PutOp(entry, now));
  }

  lemma FirstPut(entry: Entry, now: int)
    ensures Run(2, [PutOp(entry, now)]) == Empty(2).(entries := map[entry.Key() := entry.Stamped(now)], order := [entry.Key()])
  {
    assert [PutOp(entry, now)][..0] == [];
    assert Run(2, []) == Empty(2);
  }

  // ----- filtering a list -----

  function Keep(s: seq<CacheKey>, keys: set<CacheKey>): seq<CacheKey> {
    if s == [] then []
    else if s[0] in keys then [s[0]] + Keep(s[1..], keys)
    else Keep(s[1..], keys)
  }

  lemma {:induction false} KeepElems(s: seq<CacheKey>, keys: set<CacheKey>)
    ensures Elems(Keep(s, keys)) == Elems(s) * keys
    ensures NoDup(s) ==> NoDup(Keep(s, keys))
  {
    if s != [] {
      KeepElems(s[1..], keys);
      assert s == [s[0]] + s[1..];
      var rest := Keep(s[1..], keys);
      assert Elems(s) == Elems(s[1..]) + {s[0]};
      assert Elems([s[0]] + rest) == Elems(rest) + {s[0]};
      if NoDup(s) {
        assert s[0] !in s[1..];
        assert s[0] !in Elems(rest);
      }
    }
  }

  lemma {:induction false} KeepSame(s: seq<CacheKey>, a: set<CacheKey>, b: set<CacheKey>)
    requires Elems(s) * a == Elems(s) * b
    ensures Keep(s, a) == Keep(s, b)
  {
    if s != [] {
      forall x ensures x in Elems(s[1..]) * a <==> x in Elems(s[1..]) * b {
        assert x in Elems(s) * a <==> x in Elems(s) * b;
      }
      KeepSame(s[1..], a, b);
      assert s[0] in a <==> s[0] in Elems(s) * a;
    }
  }

  lemma {:induction false} KeepAll(s: seq<CacheKey>, keys: set<CacheKey>)
    requires Elems(s) <= keys
    ensures Keep(s, keys) == s
  {
    if s != [] {
      assert Elems(s[1..]) <= Elems(s);
      KeepAll(s[1..], keys);
    }
  }

  lemma {:induction false} KeepTwice(s: seq<CacheKey>, a: set<CacheKey>, b: set<CacheKey>)
    ensures Keep(Keep(s, a), b) == Keep(s, a * b)
  {
    if s != [] {
      KeepTwice(s[1..], a, b);
      if s[0] in a {
        var rest := Keep(s[1..], a);
        assert ([s[0]] + rest)[1..] == rest;
      }
    }
  }

  lemma {:induction false} KeepAppend(s: seq<CacheKey>, x: CacheKey, keys: set<CacheKey>)
    ensures Keep(s + [x], keys) == Keep(s, keys) + if x in keys then [x] else []
  {
    if s == [] {
      assert [] + [x] == [x] && [x][1..] == [];
    } else {
      assert (s + [x])[1..] == s[1..] + [x];
      KeepAppend(s[1..], x, keys);
    }
  }

  lemma {:induction false} KeepRemovesFirst(s: seq<CacheKey>, key: CacheKey)
    requires NoDup(s)
    ensures RemoveFirst(s, key) == Keep(s, Elems(s) - {key})
  {
    if s != [] {
      assert s[0] !in s[1..];
      assert Elems(s) == Elems(s[1..]) + {s[0]};
      if s[0] == key {
        KeepAll(s[1..], Elems(s) - {key});
      } else {
        KeepRemovesFirst(s[1..], key);
        KeepSame(s[1..], Elems(s) - {key}, Elems(s[1..]) - {key});
      }
    }
  }

  lemma {:induction false} KeepRemovesKeys(s: seq<CacheKey>, keys: set<CacheKey>)
    requires NoDup(s)
    ensures RemoveKeys(s, keys) == Keep(s, Elems(s) - keys)
  {
    if s != [] {
      assert s[0] !in s[1..];
      assert Elems(s) == Elems(s[1..]) + {s[0]};
      if s[0] in keys {
        KeepRemovesKeys(s[1..], keys - {s[0]});
        KeepSame(s[1..], Elems(s) - keys, Elems(s[1..]) - (keys - {s[0]}));
      } else {
        KeepRemovesKeys(s[1..], keys);
        KeepSame(s[1..], Elems(s) - keys, Elems(s[1..]) - keys);
      }
    }
  }

  // ----- atomic operations: the order lists the stored keys, each once -----

  predicate Atomic(op: Op) {
    !op.LookupOp? && !op.TouchOp?
  }

  ghost predicate Listed(c: Cache) {
    && c.maxEntries > 0 && |c.entries| <= c.maxEntries
    && NoDup(c.order) && Elems(c.order) == c.entries.Keys
  }

  lemma TouchListed(c: Cache, key: CacheKey)
    requires Listed(c) && key in c.entries
    ensures Touch(c, key).order == Keep(c.order, c.entries.Keys - {key}) + [key]
    ensures Listed(Touch(c, key))
  {
    KeepRemovesFirst(c.order, key);
    KeepElems(c.order, c.entries.Keys - {key});
    LastIsNew(Keep(c.order, c.entries.Keys - {key}), key);
  }

  lemma LastIsNew(s: seq<CacheKey>, key: CacheKey)
    requires NoDup(s) && key !in Elems(s)
    ensures NoDup(s + [key]) && Elems(s + [key]) == Elems(s) + {key}
  {
  }

  lemma WithoutListed(c: Cache, keys: set<CacheKey>)
    requires Listed(c)
    ensures WithoutKeys(c, keys).order == Keep(c.order, c.entries.Keys - keys)
    ensures Listed(WithoutKeys(c, keys))
  {
    KeepRemovesKeys(c.order, keys);
    KeepElems(c.order, c.entries.Keys - keys);
    FewerEntries(c.entries, keys);
    assert (c.entries - keys).Keys == c.entries.Keys - keys;
  }

  lemma DeleteListed(c: Cache, key: CacheKey)
    requires Listed(c)
    ensures Delete(c, key) == if key in c.entries then WithoutKeys(c, {key}) else c
  {
    RemoveNothing(c.order);
    RemoveOneMore(c.order, {}, key);
    assert {} + {key} == {key};
  }

  /** Room is made by evicting at most one key: the first in the order. */
  lemma RoomListed(c: Cache)
    requires Listed(c)
    ensures |c.entries| < c.maxEntries ==> MakeRoom(c) == c
    ensures |c.entries| == c.maxEntries ==>
              c.order != [] && MakeRoom(c) == c.(entries := c.entries - {c.order[0]}, order := c.order[1..])
    ensures Listed(MakeRoom(c))
  {
    assert |c.entries| == |c.entries.Keys|;
    if |c.entries| == c.maxEntries {
      RoomCanBeMade(c);
      var e := EvictOldest(c);
      assert e.entries.Keys == c.entries.Keys - {c.order[0]};
      assert |e.entries| == |e.entries.Keys| == |c.entries.Keys| - 1;
      assert MakeRoom(c) == MakeRoom(e) == e;
      TailListed(c.order);
    }
  }

  /** Storing a new key evicts at most one other: the first in the order. */
  lemma PutListed(c: Cache, entry: Entry, now: int)
    requires Listed(c) && entry.Key() !in c.entries
    ensures var k := entry.Key(); var r := MakeRoom(c); var c' := Put(c, entry, now);
            Listed(r) && k !in r.entries && Listed(c') && c' == r.(entries := r.entries[k := entry.Stamped(now)], order := r.order + [k])
  {
    var k := entry.Key();
    RoomListed(c);
    hide MakeRoom;
    var r := MakeRoom(c);
    LastIsNew(r.order, k);
    hide NoDup;
    OneMoreEntry(r.entries, k, entry.Stamped(now));
  }

  lemma OneMoreEntry(entries: map<CacheKey, Entry>, k: CacheKey, entry: Entry)
    requires k !in entries
    ensures entries[k := entry].Keys == entries.Keys + {k} && |entries[k := entry]| == |entries| + 1
  {
    assert |entries[k := entry]| == |entries[k := entry].Keys| && |entries| == |entries.Keys|;
  }

  lemma TailListed(s: seq<CacheKey>)
    requires NoDup(s) && s != []
    ensures NoDup(s[1..]) && Elems(s[1..]) == Elems(s) - {s[0]}
  {
    assert s == [s[0]] + s[1..];
    assert s[0] !in s[1..];
  }

  /** Storing a key again moves it to the end, as a hit does. */
  lemma PutAgainListed(c: Cache, entry: Entry, now: int)
    requires Listed(c) && entry.Key() in c.entries
    ensures var k := entry.Key(); var c' := Put(c, entry, now);
            && Listed(c')
            && c'.entries == c.entries[k := entry.Stamped(now)]
            && c'.order == Keep(c.order, c.entries.Keys - {k}) + [k]
  {
    var k := entry.Key();
    TouchListed(c, k);
    var c' := Put(c, entry, now);
    assert c'.entries.Keys == c.entries.Keys;
    assert |c'.entries| == |c'.entries.Keys| && |c.entries| == |c.entries.Keys|;
  }

  lemma ApplyListed(c: Cache, op: Op)
    requires Listed(c) && Atomic(op)
    ensures Listed(Apply(c, op))
  {
    hide StaleKeys, RemoveKeys, RemoveFirst, WithoutKeys, Keep, Put, MakeRoom, MoveToEnd, Delete;
    match op
    case PutOp(entry, now) =>
      if entry.Key() in c.entries {
        PutAgainListed(c, entry, now);
      } else {
        PutListed(c, entry, now);
      }
    case GetOp(key) =>
      if key in c.entries {
        TouchListed(c, key);
      }
    case DeleteOp(key) =>
      DeleteListed(c, key);
      WithoutListed(c, {key});
    case InvalidateOp(category, name, mtime) => WithoutListed(c, StaleKeys(c, category, name, mtime));
    case InvalidateAllOp =>
  }

  /** The second half of a Get whose key is no longer stored. */
  predicate TouchesAbsent(c: Cache, op: Op) {
    op.TouchOp? && op.key !in c.entries
  }

  /** Of all critical sections, only a late touch makes the order list what is not stored. */
  lemma StepListed(c: Cache, op: Op)
    requires Listed(c)
    ensures Listed(Apply(c, op)) <==> !TouchesAbsent(c, op)
  {
    hide NoDup, MakeRoom, StaleKeys, WithoutKeys, Put, Delete, RemoveFirst;
    match op
    case LookupOp(key) =>
    case TouchOp(key) =>
      if key in c.entries {
        TouchListed(c, key);
      } else {
        var order := Touch(c, key).order;
        assert order[|order| - 1] == key && key in Elems(order);
      }
    case _ => ApplyListed(c, op);
  }

  /** In any run, however lookups and touches interleave with the other operations: the order
      lists the stored keys, each once, at all times if and only if every touch finds its key. */
  lemma ListedExactly(maxEntries: nat, ops: seq<Op>)
    requires maxEntries > 0
    ensures (forall n :: 0 <= n <= |ops| ==> Listed(Run(maxEntries, ops[..n])))
            <==> forall n :: 0 <= n < |ops| ==> !TouchesAbsent(Run(maxEntries, ops[..n]), ops[n])
  {
    hide Listed, TouchesAbsent, Apply, Run;
    if forall n :: 0 <= n <= |ops| ==> Listed(Run(maxEntries, ops[..n])) {
      forall n | 0 <= n < |ops| ensures !TouchesAbsent(Run(maxEntries, ops[..n]), ops[n]) {
        NextListed(maxEntries, ops, n);
        assert Listed(Run(maxEntries, ops[..n + 1]));
      }
    }
    if forall n :: 0 <= n < |ops| ==> !TouchesAbsent(Run(maxEntries, ops[..n]), ops[n]) {
      forall n | 0 <= n <= |ops| ensures Listed(Run(maxEntries, ops[..n])) {
        ListedUpTo(maxEntries, ops, n);
      }
    }
  }

  lemma {:induction false} ListedUpTo(maxEntries: nat, ops: seq<Op>, n: nat)
    requires maxEntries > 0 && n <= |ops|
    requires forall n :: 0 <= n < |ops| ==> !TouchesAbsent(Run(maxEntries, ops[..n]), ops[n])
    ensures Listed(Run(maxEntries, ops[..n]))
    decreases n
  {
    hide Listed, TouchesAbsent, Apply, Run;
    if n == 0 {
      EmptyListed(maxEntries);
      assert ops[..0] == [];
    } else {
      ListedUpTo(maxEntries, ops, n - 1);
      NextListed(maxEntries, ops, n - 1);
    }
  }

  lemma EmptyListed(maxEntries: nat)
    requires maxEntries > 0
    ensures Listed(Run(maxEntries, []))
  {
  }

  lemma NextListed(maxEntries: nat, ops: seq<Op>, n: nat)
    requires maxEntries > 0 && n < |ops| && Listed(Run(maxEntries, ops[..n]))
    ensures Listed(Run(maxEntries, ops[..n + 1])) <==> !TouchesAbsent(Run(maxEntries, ops[..n]), ops[n])
  {
    hide Listed, TouchesAbsent, Apply, Run;
    assert ops[..n + 1] == ops[..n] + [ops[n]];
    RunAppend(maxEntries, ops[..n], ops[n]);
    StepListed(Run(maxEntries, ops[..n]), ops[n]);
  }

  // ----- when the order repeats a key -----

  lemma {:induction false} RemoveFirstNoDup(order: seq<CacheKey>, key: CacheKey)
    requires NoDup(order)
    ensures NoDup(RemoveFirst(order, key)) && Elems(RemoveFirst(order, key)) == Elems(order) - {key}
  {
    if order != [] {
      TailListed(order);
      RemoveFirstNoDup(order[1..], key);
      if order[0] != key {
        var rest := RemoveFirst(order[1..], key);
        assert order[0] !in Elems(rest);
        assert Elems([order[0]] + rest) == {order[0]} + Elems(rest);
      }
    }
  }

  lemma {:induction false} RemoveKeysNoDup(order: seq<CacheKey>, keys: set<CacheKey>)
    requires NoDup(order)
    ensures NoDup(RemoveKeys(order, keys)) && Elems(RemoveKeys(order, keys)) <= Elems(order)
  {
    if order != [] {
      TailListed(order);
      if order[0] in keys {
        RemoveKeysNoDup(order[1..], keys - {order[0]});
      } else {
        RemoveKeysNoDup(order[1..], keys);
        assert order[0] !in RemoveKeys(order[1..], keys);
      }
    }
  }

  lemma MoveToEndNoDup(order: seq<CacheKey>, key: CacheKey)
    requires NoDup(order)
    ensures NoDup(MoveToEnd(order, key))
  {
    RemoveFirstNoDup(order, key);
    LastIsNew(RemoveFirst(order, key), key);
  }

  lemma {:induction false} MakeRoomNoDup(c: Cache)
    requires Covered(c) && NoDup(c.order)
    ensures NoDup(MakeRoom(c).order)
    decreases |c.order|
  {
    if |c.entries| >= c.maxEntries {
      RoomCanBeMade(c);
      TailListed(c.order);
      MakeRoomNoDup(EvictOldest(c));
    }
  }

  /** Storing a key that is not stored but still listed, after making room. */
  ghost predicate PutsLeftover(c: Cache, op: Op)
    requires Covered(c)
  {
    op.PutOp? && op.entry.Key() !in c.entries && op.entry.Key() in MakeRoom(c).order
  }

  /** Of all critical sections, only this one lists a key a second time. */
  lemma StepRepeats(c: Cache, op: Op)
    requires Covered(c) && NoDup(c.order)
    ensures NoDup(Apply(c, op).order) <==> !PutsLeftover(c, op)
  {
    hide NoDup, MakeRoom, StaleKeys, MoveToEnd, RemoveFirst, RemoveKeys;
    match op
    case PutOp(entry, now) =>
      MoveToEndNoDup(c.order, entry.Key());
      MakeRoomNoDup(c);
      AppendRepeats(MakeRoom(c).order, entry.Key());
    case GetOp(key) => MoveToEndNoDup(c.order, key);
    case LookupOp(key) =>
    case TouchOp(key) => MoveToEndNoDup(c.order, key);
    case DeleteOp(key) => RemoveFirstNoDup(c.order, key);
    case InvalidateOp(category, name, mtime) => RemoveKeysNoDup(c.order, StaleKeys(c, category, name, mtime));
    case InvalidateAllOp => assert NoDup<CacheKey>([]) by { NoneTwice(); }
  }

  lemma NoneTwice()
    ensures NoDup<CacheKey>([])
  {
  }

  lemma AppendRepeats(order: seq<CacheKey>, key: CacheKey)
    requires NoDup(order)
    ensures NoDup(order + [key]) <==> key !in order
  {
    if key in order {
      var i :| 0 <= i < |order| && order[i] == key;
      assert (order + [key])[i] == (order + [key])[|order|];
    }
  }

  /** In any run the order never repeats a key if and only if no Put stores one that a late
      touch left listed. */
  lemma RepeatsExactly(maxEntries: nat, ops: seq<Op>)
    requires maxEntries > 0
    ensures (forall n :: 0 <= n <= |ops| ==> NoDup(Run(maxEntries, ops[..n]).order))
            <==> forall n :: 0 <= n < |ops| ==> !PutsLeftover(Run(maxEntries, ops[..n]), ops[n])
  {
    hide NoDup, PutsLeftover, Apply, Run;
    if forall n :: 0 <= n <= |ops| ==> NoDup(Run(maxEntries, ops[..n]).order) {
      forall n | 0 <= n < |ops| ensures !PutsLeftover(Run(maxEntries, ops[..n]), ops[n]) {
        NextRepeats(maxEntries, ops, n);
        assert NoDup(Run(maxEntries, ops[..n + 1]).order);
      }
    }
    if forall n :: 0 <= n < |ops| ==> !PutsLeftover(Run(maxEntries, ops[..n]), ops[n]) {
      forall n | 0 <= n <= |ops| ensures NoDup(Run(maxEntries, ops[..n]).order) {
        NoRepeatUpTo(maxEntries, ops, n);
      }
    }
  }

  lemma {:induction false} NoRepeatUpTo(maxEntries: nat, ops: seq<Op>, n: nat)
    requires maxEntries > 0 && n <= |ops|
    requires forall n :: 0 <= n < |ops| ==> !PutsLeftover(Run(maxEntries, ops[..n]), ops[n])
    ensures NoDup(Run(maxEntries, ops[..n]).order)
    decreases n
  {
    hide Listed, NoDup, PutsLeftover, Apply, Run;
    if n == 0 {
      EmptyListed(maxEntries);
      assert ops[..0] == [];
      assert NoDup(Run(maxEntries, []).order) by { ListedOnce(Run(maxEntries, [])); }
    } else {
      NoRepeatUpTo(maxEntries, ops, n - 1);
      NextRepeats(maxEntries, ops, n - 1);
    }
  }

  lemma ListedOnce(c: Cache)
    requires Listed(c)
    ensures NoDup(c.order)
  {
  }

  lemma NextRepeats(maxEntries: nat, ops: seq<Op>, n: nat)
    requires maxEntries > 0 && n < |ops| && NoDup(Run(maxEntries, ops[..n]).order)
    ensures NoDup(Run(maxEntries, ops[..n + 1]).order) <==> !PutsLeftover(Run(maxEntries, ops[..n]), ops[n])
  {
    hide NoDup, PutsLeftover, Apply, Run;
    assert ops[..n + 1] == ops[..n] + [ops[n]];
    RunAppend(maxEntries, ops[..n], ops[n]);
    StepRepeats(Run(maxEntries, ops[..n]), ops[n]);
  }

  // ----- atomic runs -----

  ghost predicate AllAtomic(ops: seq<Op>) {
    forall i :: 0 <= i < |ops| ==> Atomic(ops[i])
  }

  lemma {:induction false} RunListed(maxEntries: nat, ops: seq<Op>)
    requires maxEntries > 0 && AllAtomic(ops)
    ensures Listed(Run(maxEntries, ops))
  {
    if ops != [] {
      hide Listed, Apply;
      RunListed(maxEntries, ops[..|ops| - 1]);
      ApplyListed(Run(maxEntries, ops[..|ops| - 1]), ops[|ops| - 1]);
    }
  }

  /** A PutBatch does what its Puts up to the first nil entry do. */
  ghost function Puts(batch: seq<Option<Entry>>, now: int): seq<Op> {
    if batch == [] || batch[0] == None then [] else [PutOp(batch[0].value, now)] + Puts(batch[1..], now)
  }

  lemma {:induction false} BatchIsPuts(maxEntries: nat, ops: seq<Op>, batch: seq<Option<Entry>>, now: int)
    requires maxEntries > 0
    ensures PutAll(Run(maxEntries, ops), batch, now) == Run(maxEntries, ops + Puts(batch, now))
    decreases |batch|
  {
    if batch == [] || batch[0] == None {
      assert ops + [] == ops;
    } else {
      hide Put, Run, MakeRoom, MoveToEnd;
      var op := PutOp(batch[0].value, now);
      var c := Run(maxEntries, ops);
      RunAppend(maxEntries, ops, op);
      assert Run(maxEntries, ops + [op]) == Put(c, batch[0].value, now);
      BatchIsPuts(maxEntries, ops + [op], batch[1..], now);
      Regroup(ops, op, Puts(batch[1..], now));
    }
  }

  lemma Regroup(a: seq<Op>, x: Op, b: seq<Op>)
    ensures (a + [x]) + b == a + ([x] + b)
  {
  }
}
