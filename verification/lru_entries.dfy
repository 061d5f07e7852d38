/** What an entry of the cache is stored under, what comes back, and what is counted. */
module LruEntries {
  import opened Wrappers
  import opened MemoryCache
  import opened LruRuns

  // ----- keys -----

  /** Two packages share an entry exactly if category, name and version read the same when
      joined. */
  lemma SharedKeys(c: string, n: string, v: string, d: string, m: string, w: string)
    ensures MakeKey(c, n, v) == MakeKey(d, m, w) <==> c + "/" + n + "-" + v == d + "/" + m + "-" + w
  {
  }

  /** Versions of one package never do. */
  lemma VersionsApart(c: string, n: string, v: string, w: string)
    ensures MakeKey(c, n, v) == MakeKey(c, n, w) <==> v == w
  {
    var front := c + "/" + n + "-";
    assert (front + v)[|front|..] == v && (front + w)[|front|..] == w;
  }

  /** Names without a hyphen at the place of the cut are told apart by more than their text: a
      hyphen in the name can be read as the one before the version. */
  lemma NamesCanCollide(c: string, n: string, x: string, v: string)
    ensures MakeKey(c, n + "-" + x, v) == MakeKey(c, n, x + "-" + v)
  {
    assert c + "/" + (n + "-" + x) + "-" + v == c + "/" + n + "-" + (x + "-" + v);
  }

  // ----- what comes back -----

  /** What is stored under the key of an entry just put: all that was given, and the time of
      caching if none was. */
  lemma PutStoresAll(c: Cache, entry: Entry, now: int)
    requires Covered(c)
    ensures var after := Put(c, entry, now).entries; var k := MakeKey(entry.category, entry.name, entry.version);
            && k in after
            && after[k].category == entry.category && after[k].name == entry.name && after[k].version == entry.version
            && after[k].ebuildMtime == entry.ebuildMtime && after[k].metadata == entry.metadata
            && after[k].cachedAt == (if entry.cachedAt.Some? then entry.cachedAt else Some(now))
            && forall j :: j != k && j in after ==> j in c.entries && after[j] == c.entries[j]
  {
    hide MakeKey;
  }

  lemma AfterOnePut(maxEntries: nat, entry: Entry, now: int, w: string)
    requires maxEntries > 0
    ensures var c := Put(Empty(maxEntries), entry, now);
            && c.hits == 0 && c.misses == 0
            && (MakeKey(entry.category, entry.name, w) in c.entries <==> entry.version == w)
  {
    VersionsApart(entry.category, entry.name, entry.version, w);
    PutStoresAll(Empty(maxEntries), entry, now);
    hide MakeKey;
  }

  /** One version is stored and one asked for: a hit exactly if they are the same. */
  lemma PutThenGet(maxEntries: nat, entry: Entry, now: int, w: string)
    requires maxEntries > 0
    ensures var c := Run(maxEntries, [PutOp(entry, now)] + [GetOp(MakeKey(entry.category, entry.name, w))]);
            if entry.version == w then c.hits == 1 && c.misses == 0 else c.hits == 0 && c.misses == 1
  {
    var key := MakeKey(entry.category, entry.name, w);
    assert Run(maxEntries, []) == Empty(maxEntries);
    hide MakeKey, Run, Put, MoveToEnd;
    AfterOnePut(maxEntries, entry, now, w);
    RunAppend(maxEntries, [], PutOp(entry, now));
    RunAppend(maxEntries, [] + [PutOp(entry, now)], GetOp(key));
    assert [] + [PutOp(entry, now)] == [PutOp(entry, now)];
  }

  // ----- what is removed as stale -----

  /** Which stored entries an invalidation leaves: those not older than the time given, and those
      whose key does not begin with category, name and a hyphen. */
  lemma InvalidateLeaves(c: Cache, category: string, name: string, mtime: int, k: CacheKey)
    requires k in c.entries
    ensures var after := Invalidate(c, category, name, mtime).entries;
            && (k in after <==> c.entries[k].ebuildMtime >= mtime || !(category + "/" + name + "-" <= k.text))
            && (k in after ==> after[k] == c.entries[k])
  {
    hide RemoveKeys;
  }

  /** Of the package itself, whatever the version, those that are older. */
  lemma OlderVersionsLeave(c: Cache, category: string, name: string, version: string, mtime: int)
    requires MakeKey(category, name, version) in c.entries
    ensures MakeKey(category, name, version) in Invalidate(c, category, name, mtime).entries
            <==> c.entries[MakeKey(category, name, version)].ebuildMtime >= mtime
  {
    var k := MakeKey(category, name, version);
    InvalidateLeaves(c, category, name, mtime, k);
    assert k.text == (category + "/" + name + "-") + version;
    hide MakeKey, Invalidate;
  }

  /** But also those of any package whose name goes on with a hyphen. */
  lemma LongerNamesLeave(c: Cache, category: string, name: string, more: string, version: string, mtime: int)
    requires MakeKey(category, name + "-" + more, version) in c.entries
    ensures MakeKey(category, name + "-" + more, version) in Invalidate(c, category, name, mtime).entries
            <==> c.entries[MakeKey(category, name + "-" + more, version)].ebuildMtime >= mtime
  {
    NamesCanCollide(category, name, more, version);
    hide MakeKey, Invalidate;
    OlderVersionsLeave(c, category, name, more + "-" + version, mtime);
  }

  // ----- what is counted -----

  predicate Counts(op: Op) {
    op.GetOp?
  }

  function Gets(ops: seq<Op>): nat {
    if ops == [] then 0 else Gets(ops[..|ops| - 1]) + if Counts(ops[|ops| - 1]) then 1 else 0
  }

  /** Every lookup counts once, as a hit or as a miss, and nothing else counts. */
  lemma {:induction false} EveryGetCounts(maxEntries: nat, ops: seq<Op>)
    requires maxEntries > 0 && AllAtomic(ops) && forall i :: 0 <= i < |ops| ==> !ops[i].InvalidateAllOp?
    ensures Run(maxEntries, ops).hits + Run(maxEntries, ops).misses == Gets(ops)
  {
    if ops != [] {
      var before, op := ops[..|ops| - 1], ops[|ops| - 1];
      EveryGetCounts(maxEntries, before);
      var c := Run(maxEntries, before);
      assert Atomic(op);
      hide Run, MoveToEnd, RemoveFirst, RemoveKeys, StaleKeys;
      assert Apply(c, op).hits + Apply(c, op).misses == c.hits + c.misses + if op.GetOp? then 1 else 0;
    }
  }

  /** A lookup is a hit exactly if its key is stored. */
  lemma GetHits(c: Cache, key: CacheKey)
    ensures Get(c, key).entries == c.entries
    ensures key in c.entries ==> Get(c, key).hits == c.hits + 1 && Get(c, key).misses == c.misses
    ensures key !in c.entries ==> Get(c, key).hits == c.hits && Get(c, key).misses == c.misses + 1 && Get(c, key).order == c.order
  {
  }
}
