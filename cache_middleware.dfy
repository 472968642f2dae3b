/**
  The current per-class cache middleware (src/Middleware/CacheMiddleware.php):
  answers a class from a memory map, then from the pool, and only on a miss
  of both asks the rest of the chain, remembering the answer in both.
*/
module CacheMiddlewares {
  import opened Php
  import opened MiddlewareAware
  import opened CachePool

  class CacheMiddleware {
    const pool: Pool<Value>
    const flush: bool
    var memoryCache: map<string, Value>

    /** Constructing with `flush` clears the pool. */
    constructor(pool: Pool<Value>, flush: bool)
      modifies pool
      ensures this.pool == pool && this.flush == flush && memoryCache == map[]
      ensures flush ==> pool.store == map[] && pool.deferred == map[]
      ensures !flush ==> pool.store == old(pool.store) && pool.deferred == old(pool.deferred)
      ensures pool.commits == old(pool.commits)
    {
      this.pool := pool;
      this.flush := flush;
      memoryCache := map[];
      new;
      if flush {
        pool.Clear();
      }
    }

    method GetClassConfig(className: string, next: Continuation) returns (r: Value)
      modifies this, pool, next
      ensures var key := NormaliseKey(className);
        && (IsSet(Lookup(old(memoryCache), key)) ==>
             r == old(memoryCache[key]) && memoryCache == old(memoryCache)
             && pool.store == old(pool.store) && next.calls == old(next.calls))
        && (!IsSet(Lookup(old(memoryCache), key)) && key in old(pool.store) ==>
             r == old(pool.store[key]) && memoryCache == old(memoryCache)[key := r]
             && pool.store == old(pool.store) && next.calls == old(next.calls))
        && (!IsSet(Lookup(old(memoryCache), key)) && key !in old(pool.store) ==>
             r == next.resolve(className) && next.calls == old(next.calls) + 1
             && pool.store == old(pool.store)[key := r] && memoryCache == old(memoryCache)[key := r])
      ensures pool.deferred == old(pool.deferred) && pool.commits == old(pool.commits)
    {
      var key := NormaliseKey(className);
      if IsSet(Lookup(memoryCache, key)) {
        return memoryCache[key];
      }
      var item := pool.GetItem(key);
      if item.isHit {
        r := item.value.value;
        memoryCache := memoryCache[key := r];
        return;
      }
      r := next.Call(className);
      item := item.(value := Some(r));
      var _ := pool.Save(SaveItem(item));
      memoryCache := memoryCache[key := r];
    }
  }

  /** The memory map only answers with values that are set. */
  function MemoryAnswer(memory: map<string, Value>, key: string): Option<Value>
  {
    if IsSet(Lookup(memory, key)) then Some(memory[key]) else None
  }

  /**
    Two lookups in a row agree, and together consult the rest of the chain
    at most once: the first answer is remembered in memory or in the pool.
  */
  method LookupTwice(m: CacheMiddleware, className: string, next: Continuation) returns (r1: Value, r2: Value)
    modifies m, m.pool, next
    ensures r1 == r2
    ensures next.calls <= old(next.calls) + 1
  {
    r1 := m.GetClassConfig(className, next);
    r2 := m.GetClassConfig(className, next);
  }

  /**
    A null answer is not served from memory: the second lookup of a class
    whose chain answers null goes back to the pool (where the first lookup
    saved it), so memory stays without a usable entry for it.
  */
  method NullIsNotMemoised(m: CacheMiddleware, className: string, next: Continuation) returns (r: Value)
    requires NormaliseKey(className) !in m.memoryCache && NormaliseKey(className) !in m.pool.store
    requires next.resolve(className) == Null
    modifies m, m.pool, next
    ensures r == Null && next.calls == old(next.calls) + 1
    ensures MemoryAnswer(m.memoryCache, NormaliseKey(className)) == None
    ensures NormaliseKey(className) in m.pool.store && m.pool.store[NormaliseKey(className)] == Null
  {
    r := m.GetClassConfig(className, next);
    r := m.GetClassConfig(className, next);
  }

  /** Spellings that normalise alike share one entry: after a lookup of one, the other is a hit. */
  method SpellingsShareEntry(m: CacheMiddleware, a: string, b: string, next: Continuation) returns (ra: Value, rb: Value)
    requires NormaliseKey(a) == NormaliseKey(b)
    modifies m, m.pool, next
    ensures ra == rb && next.calls <= old(next.calls) + 1
  {
    ra := m.GetClassConfig(a, next);
    rb := m.GetClassConfig(b, next);
  }
}
