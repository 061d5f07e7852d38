/** What the cache remembers, told by the history of operations alone. */
module LruHistory {
  import opened Wrappers
  import opened Digraph
  import opened MemoryCache
  import opened LruRuns

  /** The key an operation uses: a Put, or a Get that hits. */
  ghost function UsedBy(c: Cache, op: Op): seq<CacheKey> {
    match op
    case PutOp(entry, _) => [entry.Key()]
    case GetOp(key) => if key in c.entries then [key] else []
    case _ => []
  }

  ghost function Uses(maxEntries: nat, ops: seq<Op>): seq<CacheKey>
    requires maxEntries > 0
    decreases |ops|
  {
    if ops == [] then []
    else Uses(maxEntries, ops[..|ops| - 1]) + UsedBy(Run(maxEntries, ops[..|ops| - 1]), ops[|ops| - 1])
  }

  /** The position of the last use of `k`, or -1. */
  function LastUse(uses: seq<CacheKey>, k: CacheKey): (i: int)
    ensures -1 <= i < |uses|
    ensures i >= 0 ==> uses[i] == k
  {
    if uses == [] then -1
    else if uses[|uses| - 1] == k then |uses| - 1
    else LastUse(uses[..|uses| - 1], k)
  }

  /** The distinct keys used after the last use of `k`. */
  ghost function UsedSince(uses: seq<CacheKey>, k: CacheKey): set<CacheKey> {
    Elems(uses[LastUse(uses, k) + 1..])
  }

  /** What an operation does to the current entry of `k`, stored or not. */
  ghost function LatestStep(latest: Option<Entry>, op: Op, k: CacheKey): Option<Entry> {
    match op
    case PutOp(entry, now) => if entry.Key() == k then Some(entry.Stamped(now)) else latest
    case DeleteOp(key) => if key == k then None else latest
    case InvalidateOp(category, name, mtime) => if latest.Some? && Stale(k, latest.value, category, name, mtime) then None else latest
    case InvalidateAllOp => None
    case _ => latest
  }

  /** The entry the operations alone say is current: the last one put under `k` and not
      deleted or invalidated since. */
  ghost function Latest(ops: seq<Op>, k: CacheKey): Option<Entry> {
    if ops == [] then None else LatestStep(Latest(ops[..|ops| - 1], k), ops[|ops| - 1], k)
  }

  // ----- uses and positions -----

  lemma LastUseAppended(uses: seq<CacheKey>, x: CacheKey, k: CacheKey)
    ensures LastUse(uses + [x], k) == if x == k then |uses| else LastUse(uses, k)
  {
    assert (uses + [x])[..|uses|] == uses;
  }

  lemma LastUseAppend(uses: seq<CacheKey>, x: CacheKey, k: CacheKey)
    ensures LastUse(uses + [x], k) == if x == k then |uses| else LastUse(uses, k)
    ensures UsedSince(uses + [x], k) == if x == k then {} else UsedSince(uses, k) + {x}
  {
    hide LastUse;
    LastUseAppended(uses, x, k);
    if x == k {
      assert (uses + [x])[|uses| + 1..] == [];
    } else {
      SuffixAppend(uses, LastUse(uses, k) + 1, x);
    }
  }

  lemma SuffixAppend(uses: seq<CacheKey>, i: nat, x: CacheKey)
    requires i <= |uses|
    ensures Elems((uses + [x])[i..]) == Elems(uses[i..]) + {x}
  {
    assert (uses + [x])[i..] == uses[i..] + [x];
  }

  /** The list is in the order of last use. */
  ghost predicate ByUse(order: seq<CacheKey>, uses: seq<CacheKey>) {
    && (forall i :: 0 <= i < |order| ==> LastUse(uses, order[i]) >= 0)
    && (forall i, j :: 0 <= i < j < |order| ==> LastUse(uses, order[i]) < LastUse(uses, order[j]))
  }

  lemma {:induction false} ByUseKeep(order: seq<CacheKey>, keys: set<CacheKey>, uses: seq<CacheKey>)
    requires ByUse(order, uses)
    ensures ByUse(Keep(order, keys), uses)
  {
    hide LastUse;
    if order != [] {
      ByUseKeep(order[1..], keys, uses);
      var rest := Keep(order[1..], keys);
      KeepElems(order[1..], keys);
      forall j | 0 <= j < |rest|
        ensures LastUse(uses, order[0]) < LastUse(uses, rest[j])
      {
        assert rest[j] in Elems(rest);
        assert rest[j] in order[1..];
      }
    }
  }

  lemma ByUseAppend(order: seq<CacheKey>, uses: seq<CacheKey>, k: CacheKey)
    requires ByUse(order, uses) && k !in order
    ensures ByUse(order + [k], uses + [k])
  {
    var order' := order + [k];
    forall i | 0 <= i < |order'|
      ensures LastUse(uses + [k], order'[i]) == if i == |order| then |uses| else LastUse(uses, order[i])
    {
      LastUseAppend(uses, k, order'[i]);
    }
    hide LastUse;
  }

  /** Whatever comes later in the order was used since. */
  lemma LaterWasUsed(order: seq<CacheKey>, uses: seq<CacheKey>, i: nat, j: nat)
    requires ByUse(order, uses) && i < j < |order|
    ensures order[j] in UsedSince(uses, order[i])
  {
    var at := LastUse(uses, order[j]);
    var since := uses[LastUse(uses, order[i]) + 1..];
    assert since[at - LastUse(uses, order[i]) - 1] == order[j];
  }

  /** And nothing used since comes earlier. */
  lemma UsedSinceIsLater(uses: seq<CacheKey>, k: CacheKey, x: CacheKey)
    requires x in UsedSince(uses, k)
    ensures LastUse(uses, x) > LastUse(uses, k)
  {
    var from := LastUse(uses, k) + 1;
    var i :| 0 <= i < |uses[from..]| && uses[from..][i] == x;
    LastUseIsLast(uses, x, from + i);
  }

  lemma {:induction false} LastUseIsLast(uses: seq<CacheKey>, x: CacheKey, i: nat)
    requires i < |uses| && uses[i] == x
    ensures LastUse(uses, x) >= i
  {
    if uses[|uses| - 1] != x {
      LastUseIsLast(uses[..|uses| - 1], x, i);
    }
  }

  // ----- the invariant -----

  /** For one key: if it is stored, the stored entry is current; if it has a current entry
      and is not stored, at least `maxEntries` other keys were used since its last use. */
  ghost predicate Remembers(c: Cache, uses: seq<CacheKey>, latest: Option<Entry>, k: CacheKey) {
    && (k in c.entries ==> latest == Some(c.entries[k]))
    && (latest.Some? && k !in c.entries ==> |UsedSince(uses, k)| >= c.maxEntries)
  }

  ghost predicate Recent(c: Cache, uses: seq<CacheKey>) {
    Listed(c) && ByUse(c.order, uses)
  }

  lemma RecentUse(c: Cache, uses: seq<CacheKey>, k: CacheKey)
    requires Recent(c, uses) && k in c.entries
    ensures Recent(Touch(c, k), uses + [k])
  {
    hide LastUse, MoveToEnd;
    TouchListed(c, k);
    ByUseKeep(c.order, c.entries.Keys - {k}, uses);
    KeepElems(c.order, c.entries.Keys - {k});
    assert k !in Elems(Keep(c.order, c.entries.Keys - {k}));
    ByUseAppend(Keep(c.order, c.entries.Keys - {k}), uses, k);
  }

  lemma RecentPut(c: Cache, uses: seq<CacheKey>, entry: Entry, now: int)
    requires Recent(c, uses)
    ensures Recent(Put(c, entry, now), uses + [entry.Key()])
  {
    hide LastUse, MoveToEnd, MakeRoom, Keep, ByUse;
    var k := entry.Key();
    if k in c.entries {
      PutAgainListed(c, entry, now);
      RecentUse(c, uses, k);
      TouchListed(c, k);
      assert Put(c, entry, now).order == Touch(c, k).order;
    } else {
      PutListed(c, entry, now);
      RoomListed(c);
      RoomByUse(c, uses);
      assert k !in MakeRoom(c).order;
      ByUseAppend(MakeRoom(c).order, uses, k);
    }
  }

  lemma RoomByUse(c: Cache, uses: seq<CacheKey>)
    requires Recent(c, uses)
    ensures ByUse(MakeRoom(c).order, uses)
  {
    hide MakeRoom, LastUse;
    RoomListed(c);
  }

  lemma RecentWithout(c: Cache, uses: seq<CacheKey>, keys: set<CacheKey>)
    requires Recent(c, uses)
    ensures Recent(WithoutKeys(c, keys), uses)
  {
    hide LastUse, WithoutKeys;
    WithoutListed(c, keys);
    ByUseKeep(c.order, c.entries.Keys - keys, uses);
  }

  lemma RecentStep(c: Cache, uses: seq<CacheKey>, op: Op)
    requires Recent(c, uses) && Atomic(op)
    ensures Recent(Apply(c, op), uses + UsedBy(c, op))
  {
    hide Recent, Put, Touch, Delete, WithoutKeys;
    assert uses + [] == uses;
    match op
    case PutOp(entry, now) => RecentPut(c, uses, entry, now);
    case GetOp(key) =>
      if key in c.entries {
        RecentUse(c, uses, key);
      } else {
        RecentMiss(c, uses);
      }
    case DeleteOp(key) =>
      RecentIsListed(c, uses);
      DeleteListed(c, key);
      RecentWithout(c, uses, {key});
    case InvalidateOp(category, name, mtime) => RecentWithout(c, uses, StaleKeys(c, category, name, mtime));
    case InvalidateAllOp => RecentEmpty(c, uses);
  }

  lemma RecentIsListed(c: Cache, uses: seq<CacheKey>)
    requires Recent(c, uses)
    ensures Listed(c)
  {
  }

  lemma RecentMiss(c: Cache, uses: seq<CacheKey>)
    requires Recent(c, uses)
    ensures Recent(c.(misses := c.misses + 1), uses)
  {
  }

  lemma RecentEmpty(c: Cache, uses: seq<CacheKey>)
    requires Recent(c, uses)
    ensures Recent(InvalidateAll(c), uses)
  {
  }

  /** A key evicted to make room has at least `maxEntries` - 1 stored keys used after it. */
  lemma EvictedIsOld(c: Cache, uses: seq<CacheKey>, x: CacheKey)
    requires Recent(c, uses) && |c.entries| == c.maxEntries && c.order != [] && x !in c.entries
    ensures |UsedSince(uses + [x], c.order[0])| >= c.maxEntries
  {
    var k := c.order[0];
    LastUseAppend(uses, x, k);
    var others := c.entries.Keys - {k} + {x};
    assert |others| == c.maxEntries by { assert |c.entries| == |c.entries.Keys|; }
    forall y | y in c.entries && y != k ensures y in UsedSince(uses, k) {
      assert y in c.order;
      var j :| 0 <= j < |c.order| && c.order[j] == y;
      LaterWasUsed(c.order, uses, 0, j);
    }
    hide Recent, UsedSince, LastUse;
    SubsetSize(others, UsedSince(uses + [x], k));
  }

  lemma RemembersPut(c: Cache, uses: seq<CacheKey>, entry: Entry, now: int, latest: Option<Entry>, k: CacheKey)
    requires Recent(c, uses) && Remembers(c, uses, latest, k)
    ensures Remembers(Put(c, entry, now), uses + [entry.Key()], if entry.Key() == k then Some(entry.Stamped(now)) else latest, k)
  {
    hide LastUse, UsedSince, MakeRoom, MoveToEnd, ByUse, Recent;
    var x := entry.Key();
    LastUseAppend(uses, x, k);
    if x != k {
      SubsetSize(UsedSince(uses, k), UsedSince(uses, k) + {x});
    }
    if x !in c.entries {
      NewRemembers(c, uses, entry, now, latest, k);
    }
  }

  /** What a Put of an absent key does to the entry of `k`. */
  lemma NewEntry(c: Cache, entry: Entry, now: int, k: CacheKey)
    requires Listed(c) && entry.Key() !in c.entries
    ensures Put(c, entry, now).maxEntries == c.maxEntries
    ensures var after := Put(c, entry, now).entries;
            if k == entry.Key() then k in after && after[k] == entry.Stamped(now)
            else
              && (k in after ==> k in c.entries && after[k] == c.entries[k])
              && (k in c.entries && k !in after ==> |c.entries| == c.maxEntries && c.order != [] && k == c.order[0])
  {
    PutListed(c, entry, now);
    RoomListed(c);
    assert |c.entries| <= c.maxEntries;
    hide MakeRoom, MoveToEnd, Listed, Put;
  }

  lemma NewRemembers(c: Cache, uses: seq<CacheKey>, entry: Entry, now: int, latest: Option<Entry>, k: CacheKey)
    requires Recent(c, uses) && Remembers(c, uses, latest, k) && entry.Key() !in c.entries
    requires entry.Key() != k ==> |UsedSince(uses + [entry.Key()], k)| >= |UsedSince(uses, k)|
    ensures Remembers(Put(c, entry, now), uses + [entry.Key()], if entry.Key() == k then Some(entry.Stamped(now)) else latest, k)
  {
    NewEntry(c, entry, now, k);
    hide Put, UsedSince, Listed, ByUse;
    if k != entry.Key() && k in c.entries && k !in Put(c, entry, now).entries {
      EvictedIsOld(c, uses, entry.Key());
    }
  }

  lemma RemembersUse(c: Cache, uses: seq<CacheKey>, x: CacheKey, latest: Option<Entry>, k: CacheKey)
    requires Remembers(c, uses, latest, k) && x in c.entries
    ensures Remembers(Touch(c, x), uses + [x], latest, k)
  {
    hide LastUse, UsedSince, MoveToEnd;
    LastUseAppend(uses, x, k);
    if x != k {
      SubsetSize(UsedSince(uses, k), UsedSince(uses, k) + {x});
    }
  }

  lemma RemembersStep(c: Cache, uses: seq<CacheKey>, op: Op, latest: Option<Entry>, k: CacheKey)
    requires Recent(c, uses) && Remembers(c, uses, latest, k) && Atomic(op)
    ensures Remembers(Apply(c, op), uses + UsedBy(c, op), LatestStep(latest, op, k), k)
  {
    hide Recent, Put, UsedSince, MoveToEnd, RemoveFirst, RemoveKeys, Stale;
    assert uses + [] == uses;
    match op
    case PutOp(entry, now) => RemembersPut(c, uses, entry, now, latest, k);
    case GetOp(key) =>
      if key in c.entries {
        RemembersUse(c, uses, key, latest, k);
      }
    case DeleteOp(key) =>
    case InvalidateOp(category, name, mtime) =>
    case InvalidateAllOp =>
  }

  /** The order is the order of last use; a stored entry is the one put last and not deleted
      or invalidated since, so that is what a hit returns; and a key is evicted only after at
      least `maxEntries` distinct other keys were put or hit since its last use. */
  lemma {:induction false} LruRefinement(maxEntries: nat, ops: seq<Op>, k: CacheKey)
    requires maxEntries > 0 && AllAtomic(ops)
    ensures var c, uses := Run(maxEntries, ops), Uses(maxEntries, ops);
            && NoDup(c.order) && Elems(c.order) == c.entries.Keys && ByUse(c.order, uses)
            && (k in c.entries ==> Latest(ops, k) == Some(c.entries[k]))
            && (Latest(ops, k).Some? && k !in c.entries ==> |UsedSince(uses, k)| >= maxEntries)
    ensures Recent(Run(maxEntries, ops), Uses(maxEntries, ops))
  {
    if ops != [] {
      var before, op := ops[..|ops| - 1], ops[|ops| - 1];
      hide Apply, UsedSince, UsedBy, LastUse, LatestStep, Elems;
      LruRefinement(maxEntries, before, k);
      var c, uses := Run(maxEntries, before), Uses(maxEntries, before);
      RecentStep(c, uses, op);
      RemembersStep(c, uses, op, Latest(before, k), k);
    }
  }

  // ----- without removals the description is exact -----

  ghost predicate NoRemovals(ops: seq<Op>) {
    forall i :: 0 <= i < |ops| ==> ops[i].PutOp? || ops[i].GetOp?
  }

  /** What was used after a stored key is stored itself. */
  ghost predicate Together(c: Cache, uses: seq<CacheKey>) {
    forall k :: k in c.entries ==> UsedSince(uses, k) <= c.entries.Keys - {k}
  }

  lemma TogetherUse(c: Cache, uses: seq<CacheKey>, x: CacheKey, c': Cache)
    requires Together(c, uses) && x in c.entries && c'.entries.Keys == c.entries.Keys
    ensures Together(c', uses + [x])
  {
    hide LastUse, UsedSince;
    forall k | k in c'.entries ensures UsedSince(uses + [x], k) <= c'.entries.Keys - {k} {
      LastUseAppend(uses, x, k);
    }
  }

  lemma TogetherPut(c: Cache, uses: seq<CacheKey>, entry: Entry, now: int)
    requires Recent(c, uses) && Together(c, uses) && entry.Key() !in c.entries
    ensures Together(Put(c, entry, now), uses + [entry.Key()])
  {
    hide Recent, UsedSince, MakeRoom, Put, Listed;
    var x := entry.Key();
    RecentIsListed(c, uses);
    PutListed(c, entry, now);
    var room, c' := MakeRoom(c).entries.Keys, Put(c, entry, now);
    assert c'.entries.Keys == room + {x};
    forall k | k in c'.entries ensures UsedSince(uses + [x], k) <= c'.entries.Keys - {k} {
      LastUseAppend(uses, x, k);
      if k != x {
        StaysTogether(c, uses, k);
      }
    }
  }

  /** What was used after a key that stays is not what is evicted. */
  lemma StaysTogether(c: Cache, uses: seq<CacheKey>, k: CacheKey)
    requires Recent(c, uses) && Together(c, uses) && k in MakeRoom(c).entries
    ensures UsedSince(uses, k) <= MakeRoom(c).entries.Keys - {k}
  {
    hide LastUse, UsedSince, MakeRoom, ByUse, NoDup;
    RoomListed(c);
    if |c.entries| == c.maxEntries {
      assert k in c.order;
      OldestNotSince(c.order, uses, k);
    }
  }

  lemma OldestNotSince(order: seq<CacheKey>, uses: seq<CacheKey>, k: CacheKey)
    requires ByUse(order, uses) && k in order
    ensures order[0] !in UsedSince(uses, k)
  {
    hide LastUse, UsedSince;
    var j :| 0 <= j < |order| && order[j] == k;
    assert LastUse(uses, order[0]) <= LastUse(uses, order[j]);
    if order[0] in UsedSince(uses, k) {
      UsedSinceIsLater(uses, k, order[0]);
    }
  }

  lemma {:induction false} AlwaysTogether(maxEntries: nat, ops: seq<Op>)
    requires maxEntries > 0 && NoRemovals(ops)
    ensures Together(Run(maxEntries, ops), Uses(maxEntries, ops))
  {
    if ops != [] {
      hide UsedSince, Together, Put, Recent, MoveToEnd;
      var before, op := ops[..|ops| - 1], ops[|ops| - 1];
      AlwaysTogether(maxEntries, before);
      var c, uses := Run(maxEntries, before), Uses(maxEntries, before);
      LruRefinement(maxEntries, before, CacheKey(""));
      assert uses + [] == uses;
      match op
      case PutOp(entry, now) =>
        if entry.Key() in c.entries {
          PutAgainKeys(c, entry, now);
          TogetherUse(c, uses, entry.Key(), Put(c, entry, now));
        } else {
          TogetherPut(c, uses, entry, now);
        }
      case GetOp(key) =>
        if key in c.entries {
          TogetherUse(c, uses, key, Touch(c, key));
        } else {
          TogetherMiss(c, uses);
        }
    } else {
      assert Run(maxEntries, []) == Empty(maxEntries);
    }
  }

  lemma TogetherMiss(c: Cache, uses: seq<CacheKey>)
    requires Together(c, uses)
    ensures Together(c.(misses := c.misses + 1), uses)
  {
  }

  lemma PutAgainKeys(c: Cache, entry: Entry, now: int)
    requires Covered(c) && entry.Key() in c.entries
    ensures Put(c, entry, now).entries.Keys == c.entries.Keys
  {
  }

  /** With Puts and Gets only, a key is stored exactly if it was put and fewer than
      `maxEntries` distinct keys were used since its last use. */
  lemma ExactlyTheRecent(maxEntries: nat, ops: seq<Op>, k: CacheKey)
    requires maxEntries > 0 && NoRemovals(ops)
    ensures k in Run(maxEntries, ops).entries <==>
            Latest(ops, k).Some? && |UsedSince(Uses(maxEntries, ops), k)| < maxEntries
  {
    hide UsedSince, Recent, Run, Latest;
    LruRefinement(maxEntries, ops, k);
    AlwaysTogether(maxEntries, ops);
    var c, uses := Run(maxEntries, ops), Uses(maxEntries, ops);
    if k in c.entries {
      SubsetSize(UsedSince(uses, k), c.entries.Keys - {k});
      assert |c.entries| == |c.entries.Keys|;
      assert |c.entries.Keys - {k}| == |c.entries.Keys| - 1;
    }
  }
}
