/** The inclusion property of LRU: fed the same operations, a smaller cache is always part of
    a larger one, deletions and invalidations included. */
module LruInclusion {
  import opened Digraph
  import opened MemoryCache
  import opened LruRuns

  /** The smaller order is the larger one cut down to the smaller cache's keys, and the
      smaller cache never has more room to spare. */
  ghost predicate Included(a: Cache, b: Cache) {
    && Listed(a) && Listed(b)
    && a.maxEntries <= b.maxEntries
    && Inside(a, b)
    && Slack(a) <= Slack(b)
    && a.hits <= b.hits
  }

  ghost predicate Inside(a: Cache, b: Cache) {
    && a.order == Keep(b.order, a.entries.Keys)
    && a.entries.Keys <= b.entries.Keys
    && forall k :: k in a.entries ==> a.entries[k] == b.entries[k]
  }

  function Slack(c: Cache): int {
    c.maxEntries - |c.entries|
  }

  // ----- one list cut down, and moved to the end -----

  lemma CutTwice(s: seq<CacheKey>, big: set<CacheKey>, small: set<CacheKey>)
    requires small <= big
    ensures Keep(Keep(s, big), small) == Keep(s, small)
  {
    KeepTwice(s, big, small);
    assert big * small == small;
  }

  lemma MoveInside(s: seq<CacheKey>, a: set<CacheKey>, b: set<CacheKey>, k: CacheKey)
    requires a <= b
    ensures k in a ==> Keep(Keep(s, b - {k}) + [k], a) == Keep(Keep(s, a), a - {k}) + [k]
    ensures k !in a ==> Keep(Keep(s, b - {k}) + [k], a) == Keep(s, a)
  {
    KeepAppend(Keep(s, b - {k}), k, a);
    KeepTwice(s, b - {k}, a);
    if k in a {
      assert (b - {k}) * a == a - {k};
      CutTwice(s, a, a - {k});
    } else {
      assert (b - {k}) * a == a;
      assert Keep(s, a) + [] == Keep(s, a);
    }
  }

  lemma SizeOfEntries(c: Cache)
    ensures |c.entries| == |c.entries.Keys|
  {
  }

  // ----- a key used in the larger cache, and perhaps in the smaller -----

  lemma TouchInside(a: Cache, b: Cache, k: CacheKey)
    requires Listed(a) && Listed(b) && Inside(a, b) && k in b.entries
    ensures k in a.entries ==> Inside(Touch(a, k), Touch(b, k))
    ensures k !in a.entries ==> Inside(a, Touch(b, k))
  {
    hide RemoveFirst, MoveToEnd;
    TouchListed(b, k);
    MoveInside(b.order, a.entries.Keys, b.entries.Keys, k);
    if k in a.entries {
      TouchListed(a, k);
    }
  }

  lemma GetIncluded(a: Cache, b: Cache, k: CacheKey)
    requires Included(a, b)
    ensures Included(Get(a, k), Get(b, k))
    ensures k in a.entries ==> k in b.entries
  {
    hide MoveToEnd, Keep;
    if k in b.entries {
      TouchInside(a, b, k);
      TouchListed(b, k);
      if k in a.entries {
        TouchListed(a, k);
      }
    }
  }

  // ----- removing keys -----

  lemma WithoutIncluded(a: Cache, b: Cache, keysA: set<CacheKey>, keysB: set<CacheKey>)
    requires Included(a, b) && keysA <= a.entries.Keys && keysB <= b.entries.Keys && keysA == keysB * a.entries.Keys
    ensures Included(WithoutKeys(a, keysA), WithoutKeys(b, keysB))
  {
    hide RemoveKeys, Keep;
    WithoutListed(a, keysA);
    WithoutListed(b, keysB);
    var keepA, keepB := a.entries.Keys - keysA, b.entries.Keys - keysB;
    var a', b' := WithoutKeys(a, keysA), WithoutKeys(b, keysB);
    assert a'.entries.Keys == keepA && b'.entries.Keys == keepB;
    assert Inside(a', b') by {
      CutTwice(b.order, a.entries.Keys, keepA);
      CutTwice(b.order, keepB, keepA);
    }
    hide Listed, Inside;
    SizeOfEntries(a);
    SizeOfEntries(b);
    SizeOfEntries(a');
    SizeOfEntries(b');
    SubsetSize(keysA, keysB);
    assert |keepA| == |a.entries.Keys| - |keysA| && |keepB| == |b.entries.Keys| - |keysB|;
  }

  lemma InvalidateIncluded(a: Cache, b: Cache, category: string, name: string, mtime: int)
    requires Included(a, b)
    ensures Included(Invalidate(a, category, name, mtime), Invalidate(b, category, name, mtime))
  {
    hide WithoutKeys, Keep, Stale;
    assert StaleKeys(a, category, name, mtime) == StaleKeys(b, category, name, mtime) * a.entries.Keys;
    WithoutIncluded(a, b, StaleKeys(a, category, name, mtime), StaleKeys(b, category, name, mtime));
  }

  lemma WithoutNothing(c: Cache)
    ensures WithoutKeys(c, {}) == c
  {
    RemoveNothing(c.order);
  }

  lemma DeleteIncluded(a: Cache, b: Cache, k: CacheKey)
    requires Included(a, b)
    ensures Included(Delete(a, k), Delete(b, k))
  {
    hide WithoutKeys, Keep, Delete;
    DeleteListed(a, k);
    DeleteListed(b, k);
    WithoutNothing(a);
    WithoutNothing(b);
    if k in a.entries {
      WithoutIncluded(a, b, {k}, {k});
    } else if k in b.entries {
      WithoutIncluded(a, b, {}, {k});
    }
  }

  // ----- storing -----

  /** Evicting from the smaller cache alone. */
  lemma EvictInside(a: Cache, b: Cache)
    requires Listed(a) && Inside(a, b) && a.order != []
    ensures Inside(a.(entries := a.entries - {a.order[0]}, order := a.order[1..]), b)
  {
    var keys := a.entries.Keys - {a.order[0]};
    FirstCut(a.order);
    CutTwice(b.order, a.entries.Keys, keys);
  }

  lemma FirstCut(s: seq<CacheKey>)
    requires NoDup(s) && s != []
    ensures s[1..] == Keep(s, Elems(s) - {s[0]})
  {
    TailListed(s);
    KeepAll(s[1..], Elems(s) - {s[0]});
  }

  /** When the larger cache evicts, the smaller evicts too, and what the larger evicts is gone
      from the smaller. */
  lemma EvictBothInside(a: Cache, b: Cache)
    requires Listed(a) && Listed(b) && Inside(a, b) && a.order != [] && b.order != []
    ensures Inside(a.(entries := a.entries - {a.order[0]}, order := a.order[1..]),
                   b.(entries := b.entries - {b.order[0]}, order := b.order[1..]))
  {
    EvictInside(a, b);
    FirstCut(b.order);
    var keys := a.entries.Keys - {a.order[0]};
    if b.order[0] in a.entries {
      assert Keep(b.order, a.entries.Keys)[0] == b.order[0];
    }
    assert b.order[0] !in keys;
    assert keys <= b.entries.Keys - {b.order[0]};
    CutTwice(b.order, b.entries.Keys - {b.order[0]}, keys);
  }

  lemma RoomInside(a: Cache, b: Cache)
    requires Listed(a) && Listed(b) && Inside(a, b) && Slack(a) <= Slack(b)
    ensures Inside(MakeRoom(a), MakeRoom(b)) && Inside(MakeRoom(a), b)
  {
    hide Keep, Inside, MakeRoom;
    RoomListed(a);
    RoomListed(b);
    if Slack(a) == 0 {
      EvictInside(a, b);
      if Slack(b) == 0 {
        EvictBothInside(a, b);
      }
    }
  }

  lemma AppendInside(a: Cache, b: Cache, k: CacheKey, e: Entry)
    requires Inside(a, b) && k !in b.entries && k !in a.entries && k !in b.order
    ensures Inside(a.(entries := a.entries[k := e], order := a.order + [k]), b.(entries := b.entries[k := e], order := b.order + [k]))
  {
    var keys := a.entries.Keys + {k};
    KeepAppend(b.order, k, keys);
    KeepSame(b.order, keys, a.entries.Keys);
    assert a.entries[k := e].Keys == keys;
  }

  lemma NewNewInside(a: Cache, b: Cache, entry: Entry, now: int)
    requires Included(a, b) && entry.Key() !in a.entries && entry.Key() !in b.entries
    ensures Inside(Put(a, entry, now), Put(b, entry, now))
  {
    RoomInside(a, b);
    PutListed(a, entry, now);
    PutListed(b, entry, now);
    RoomListed(b);
    var ra, rb, k := MakeRoom(a), MakeRoom(b), entry.Key();
    assert k !in rb.order;
    hide Inside, MakeRoom, Put, Keep, Listed;
    AppendInside(ra, rb, k, entry.Stamped(now));
    SameInside(ra.(entries := ra.entries[k := entry.Stamped(now)], order := ra.order + [k]),
               rb.(entries := rb.entries[k := entry.Stamped(now)], order := rb.order + [k]),
               Put(a, entry, now), Put(b, entry, now));
  }

  /** Only the entries and the order count. */
  lemma SameInside(a: Cache, b: Cache, a': Cache, b': Cache)
    requires Inside(a, b) && a'.entries == a.entries && a'.order == a.order && b'.entries == b.entries && b'.order == b.order
    ensures Inside(a', b')
  {
    hide Keep;
  }

  lemma PutNewNew(a: Cache, b: Cache, entry: Entry, now: int)
    requires Included(a, b) && entry.Key() !in b.entries
    ensures Included(Put(a, entry, now), Put(b, entry, now))
  {
    InsideKeys(a, b);
    hide Put, Inside;
    NewNewInside(a, b, entry, now);
    PutListed(a, entry, now);
    PutListed(b, entry, now);
    PutSlack(a, entry, now);
    PutSlack(b, entry, now);
    hide Listed, MakeRoom;
  }

  lemma InsideKeys(a: Cache, b: Cache)
    requires Inside(a, b)
    ensures a.entries.Keys <= b.entries.Keys
  {
  }

  /** A new key takes one place if there is one to spare. */
  lemma PutSlack(c: Cache, entry: Entry, now: int)
    requires Listed(c) && entry.Key() !in c.entries
    ensures Slack(Put(c, entry, now)) == if Slack(c) > 0 then Slack(c) - 1 else 0
    ensures Put(c, entry, now).hits == c.hits && Put(c, entry, now).maxEntries == c.maxEntries
  {
    hide MakeRoom, Put;
    PutListed(c, entry, now);
    RoomListed(c);
    OneMoreEntry(MakeRoom(c).entries, entry.Key(), entry.Stamped(now));
    if |c.entries| == c.maxEntries {
      assert c.order[0] in c.order;
      OneLessEntry(c.entries, c.order[0]);
    }
    hide NoDup;
  }

  lemma OneLessEntry(entries: map<CacheKey, Entry>, k: CacheKey)
    requires k in entries
    ensures |entries - {k}| == |entries| - 1
  {
    assert (entries - {k}).Keys == entries.Keys - {k};
    assert |entries - {k}| == |(entries - {k}).Keys| && |entries| == |entries.Keys|;
  }

  lemma PutAgainSlack(c: Cache, entry: Entry, now: int)
    requires Listed(c) && entry.Key() in c.entries
    ensures var c' := Put(c, entry, now);
            Slack(c') == Slack(c) && c'.hits == c.hits && c'.maxEntries == c.maxEntries && c'.entries.Keys == c.entries.Keys
  {
    hide MoveToEnd;
    var c' := Put(c, entry, now);
    assert c'.entries.Keys == c.entries.Keys;
    SizeOfEntries(c);
    SizeOfEntries(c');
  }

  lemma CutNewAgain(s: seq<CacheKey>, keys: set<CacheKey>, b: set<CacheKey>, k: CacheKey)
    requires k in b && k !in keys && keys <= b
    ensures Keep(Keep(s, b - {k}) + [k], keys + {k}) == Keep(s, keys) + [k]
  {
    MoveInside(s, keys + {k}, b, k);
    CutTwice(s, keys + {k}, keys);
    assert (keys + {k}) - {k} == keys;
  }

  lemma NewAgainResult(ra: Cache, a': Cache, b: Cache, b': Cache, k: CacheKey, e: Entry)
    requires Inside(ra, b) && k !in ra.entries && k in b.entries
    requires a'.entries == ra.entries[k := e] && b'.entries == b.entries[k := e]
    requires a'.order == ra.order + [k] && b'.order == Keep(b.order, b.entries.Keys - {k}) + [k]
    ensures Inside(a', b')
  {
    hide Keep;
    CutNewAgain(b.order, ra.entries.Keys, b.entries.Keys, k);
    assert a'.entries.Keys == ra.entries.Keys + {k};
  }

  lemma NewAgainInside(a: Cache, b: Cache, entry: Entry, now: int)
    requires Included(a, b) && entry.Key() !in a.entries && entry.Key() in b.entries
    ensures Inside(Put(a, entry, now), Put(b, entry, now))
  {
    RoomInside(a, b);
    PutListed(a, entry, now);
    PutAgainListed(b, entry, now);
    var ra, a', b' := MakeRoom(a), Put(a, entry, now), Put(b, entry, now);
    hide Inside, MakeRoom, Put, Keep, Listed;
    NewAgainResult(ra, a', b, b', entry.Key(), entry.Stamped(now));
  }

  lemma PutNewAgain(a: Cache, b: Cache, entry: Entry, now: int)
    requires Included(a, b) && entry.Key() !in a.entries && entry.Key() in b.entries
    ensures Included(Put(a, entry, now), Put(b, entry, now))
  {
    hide Put, Inside;
    NewAgainInside(a, b, entry, now);
    PutListed(a, entry, now);
    PutAgainListed(b, entry, now);
    PutSlack(a, entry, now);
    PutAgainSlack(b, entry, now);
    hide Listed, MakeRoom;
  }

  lemma PutAgainAgain(a: Cache, b: Cache, entry: Entry, now: int)
    requires Included(a, b) && entry.Key() in a.entries
    ensures Included(Put(a, entry, now), Put(b, entry, now))
  {
    InsideKeys(a, b);
    hide Put, Inside;
    AgainAgainInside(a, b, entry, now);
    PutAgainListed(a, entry, now);
    PutAgainListed(b, entry, now);
    PutAgainSlack(a, entry, now);
    PutAgainSlack(b, entry, now);
    hide Listed;
  }

  lemma AgainAgainInside(a: Cache, b: Cache, entry: Entry, now: int)
    requires Included(a, b) && entry.Key() in a.entries && entry.Key() in b.entries
    ensures Inside(Put(a, entry, now), Put(b, entry, now))
  {
    InsideKeys(a, b);
    PutAgainListed(a, entry, now);
    PutAgainListed(b, entry, now);
    hide Put, Inside, Keep, Listed, Slack;
    AgainAgainResult(a, Put(a, entry, now), b, Put(b, entry, now), entry.Key(), entry.Stamped(now));
  }

  lemma AgainAgainResult(a: Cache, a': Cache, b: Cache, b': Cache, k: CacheKey, e: Entry)
    requires Inside(a, b) && k in a.entries && k in b.entries
    requires a'.entries == a.entries[k := e] && b'.entries == b.entries[k := e]
    requires a'.order == Keep(a.order, a.entries.Keys - {k}) + [k] && b'.order == Keep(b.order, b.entries.Keys - {k}) + [k]
    ensures Inside(a', b')
  {
    hide Keep;
    MoveInside(b.order, a.entries.Keys, b.entries.Keys, k);
    assert a'.entries.Keys == a.entries.Keys && b'.entries.Keys == b.entries.Keys;
  }

  lemma ApplyIncluded(a: Cache, b: Cache, op: Op)
    requires Included(a, b) && Atomic(op)
    ensures Included(Apply(a, op), Apply(b, op))
  {
    InsideKeys(a, b);
    hide Inside, Put, Get, Delete, Invalidate;
    match op
    case PutOp(entry, now) =>
      if entry.Key() in a.entries {
        PutAgainAgain(a, b, entry, now);
      } else if entry.Key() in b.entries {
        PutNewAgain(a, b, entry, now);
      } else {
        PutNewNew(a, b, entry, now);
      }
    case GetOp(key) => GetIncluded(a, b, key);
    case DeleteOp(key) => DeleteIncluded(a, b, key);
    case InvalidateOp(category, name, mtime) => InvalidateIncluded(a, b, category, name, mtime);
    case InvalidateAllOp => EmptyIncluded(a.maxEntries, b.maxEntries);
  }

  lemma EmptyIncluded(n: nat, m: nat)
    requires 0 < n <= m
    ensures Included(Empty(n), Empty(m))
  {
  }

  /** Whatever the operations, the smaller cache stays part of the larger: its order is the
      larger order cut down, its entries are the same, what it hits the larger hits, and it
      has counted no more hits. */
  lemma {:induction false} InclusionProperty(n: nat, m: nat, ops: seq<Op>)
    requires 0 < n <= m && AllAtomic(ops)
    ensures var small, large := Run(n, ops), Run(m, ops);
            && small.order == Keep(large.order, small.entries.Keys)
            && (forall k :: k in small.entries ==> k in large.entries && small.entries[k] == large.entries[k])
            && small.hits <= large.hits
    ensures Included(Run(n, ops), Run(m, ops))
  {
    if ops == [] {
      EmptyIncluded(n, m);
    } else {
      var before, op := ops[..|ops| - 1], ops[|ops| - 1];
      InclusionProperty(n, m, before);
      hide Apply;
      ApplyIncluded(Run(n, before), Run(m, before), op);
    }
  }
}
