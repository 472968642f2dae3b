/**
  The first-generation per-class cache middleware
  (src/micmania1/config/Middleware/CacheMiddleware.php): answers from the
  pool under the class name as given, else from `$next()`.
*/
module LegacyCacheMiddlewares {
  import opened Php
  import opened CachePool

  /** The legacy `$next`: called without arguments, it yields the class config. */
  class Thunk {
    const value: Value
    var calls: nat

    constructor(value: Value)
      ensures this.value == value && calls == 0
    {
      this.value := value;
      calls := 0;
    }

    method Call() returns (r: Value)
      modifies this
      ensures r == value && calls == old(calls) + 1
    {
      r := value;
      calls := calls + 1;
    }
  }

  class CacheMiddleware {
    const pool: Pool<Value>
    const flush: bool

    /** Constructing with `flush` clears the pool. */
    constructor(pool: Pool<Value>, flush: bool)
      modifies pool
      ensures this.pool == pool && this.flush == flush
      ensures flush ==> pool.store == map[] && pool.deferred == map[]
      ensures !flush ==> pool.store == old(pool.store) && pool.deferred == old(pool.deferred)
      ensures pool.commits == old(pool.commits)
    {
      this.pool := pool;
      this.flush := flush;
      new;
      if flush {
        pool.Clear();
      }
    }

    /**
      AS WRITTEN: on a miss the result is handed to `save` itself rather than
      the item that carries it, so nothing is stored and every later lookup
      of the class misses again.
    */
    method GetClassConfigAsWritten(className: string, next: Thunk) returns (r: Value)
      modifies pool, next
      ensures className in old(pool.store) ==> r == old(pool.store[className]) && next.calls == old(next.calls)
      ensures className !in old(pool.store) ==> r == next.value && next.calls == old(next.calls) + 1
      ensures pool.store == old(pool.store) && pool.deferred == old(pool.deferred)
    {
      var item := pool.GetItem(className);
      if item.isHit {
        return item.value.value;
      }
      r := next.Call();
      item := item.(value := Some(r));
      var _ := pool.Save(SaveRaw(r));
    }

    /** Corrected: the item carrying the result is saved, under the class name as given. */
    method GetClassConfig(className: string, next: Thunk) returns (r: Value)
      modifies pool, next
      ensures className in old(pool.store) ==>
        r == old(pool.store[className]) && next.calls == old(next.calls) && pool.store == old(pool.store)
      ensures className !in old(pool.store) ==>
        r == next.value && next.calls == old(next.calls) + 1 && pool.store == old(pool.store)[className := r]
      ensures pool.deferred == old(pool.deferred)
    {
      var item := pool.GetItem(className);
      if item.isHit {
        return item.value.value;
      }
      r := next.Call();
      item := item.(value := Some(r));
      var _ := pool.Save(SaveItem(item));
    }
  }

  /** As written, two lookups of an uncached class both run `$next`. */
  method RepeatedMissAsWritten(m: CacheMiddleware, className: string, next: Thunk) returns (r1: Value, r2: Value)
    requires className !in m.pool.store
    modifies m.pool, next
    ensures r1 == r2 == next.value
    ensures next.calls == old(next.calls) + 2
    ensures className !in m.pool.store
  {
    r1 := m.GetClassConfigAsWritten(className, next);
    r2 := m.GetClassConfigAsWritten(className, next);
  }

  /** Corrected, the second lookup is a pool hit: `$next` runs once. */
  method RepeatedMissCorrected(m: CacheMiddleware, className: string, next: Thunk) returns (r1: Value, r2: Value)
    requires className !in m.pool.store
    modifies m.pool, next
    ensures r1 == r2 == next.value
    ensures next.calls == old(next.calls) + 1
    ensures className in m.pool.store && m.pool.store[className] == next.value
  {
    r1 := m.GetClassConfig(className, next);
    r2 := m.GetClassConfig(className, next);
  }

  /** The legacy pool key is the class name as given: spellings differing in case never share an entry. */
  method CaseSensitiveKeys(m: CacheMiddleware, next: Thunk) returns (r: Value)
    requires "Foo" !in m.pool.store && "foo" in m.pool.store
    modifies m.pool, next
    ensures r == next.value
    ensures next.calls == old(next.calls) + 1
  {
    r := m.GetClassConfig("Foo", next);
  }
}
