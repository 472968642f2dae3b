/**
  The first-generation cached collection
  (src/micmania1/config/CachedConfigCollection.php): builds its collection at
  most once, from the pool entry `__CONFIG__` or from a factory, and caches a
  clone of what the factory built, so that later local edits stay local.
*/
module LegacyCachedCollections {
  import opened Php
  import opened ConfigState
  import opened CachePool
  import opened LegacyCollection

  const CACHE_KEY: string := "__CONFIG__"

  /** The collection factory: a fresh collection holding `seed`, built with `transformers`. */
  class CollectionCreator {
    const seed: Snapshot
    const transformers: seq<Transformer>
    var calls: nat

    constructor(seed: Snapshot, transformers: seq<Transformer>)
      ensures this.seed == seed && this.transformers == transformers && calls == 0
    {
      this.seed := seed;
      this.transformers := transformers;
      calls := 0;
    }

    method Create() returns (c: ConfigCollection)
      modifies this
      ensures fresh(c) && c.State() == seed && c.transformers == transformers
      ensures calls == old(calls) + 1
    {
      c := new ConfigCollection(transformers, seed.trackMetadata);
      c.Unserialize(seed);
      calls := calls + 1;
    }
  }

  class CachedConfigCollection {
    const pool: Pool<ConfigCollection>
    const creator: CollectionCreator
    const flush: bool
    var collection: ConfigCollection?
    var dirty: bool

    constructor(pool: Pool<ConfigCollection>, creator: CollectionCreator, flush: bool)
      ensures this.pool == pool && this.creator == creator && this.flush == flush
      ensures collection == null && !dirty
    {
      this.pool := pool;
      this.creator := creator;
      this.flush := flush;
      collection := null;
      dirty := false;
    }

    predicate Rebuilds()
      reads this, pool
    {
      collection == null && (flush || CACHE_KEY !in pool.store)
    }

    /** The collection `getCollection` will hand out, when it is not a new one. */
    function Existing(): set<object>
      reads this, pool
    {
      (if collection != null then {collection} else {}) +
      (if CACHE_KEY in pool.store then {pool.store[CACHE_KEY]} else {})
    }

    ghost function Upcoming(): Snapshot
      reads this, collection, pool
      reads if CACHE_KEY in pool.store then {pool.store[CACHE_KEY]} else {}
    {
      if collection != null then collection.State()
      else if !flush && CACHE_KEY in pool.store then pool.store[CACHE_KEY].State()
      else creator.seed
    }

    /**
      The effect of `getCollection` on everything but the contents of the
      collection it hands out: that collection is the one already built, or
      the pool's entry, or a new one; only a rebuild calls the factory, sets
      dirty and defers the save of a distinct clone, without transformers,
      holding the store the factory built; the committed store is kept.
    */
    twostate predicate BuildEffects()
      reads this, pool, creator, collection
      reads if CACHE_KEY in pool.deferred then {pool.deferred[CACHE_KEY]} else {}
    {
      && collection != null
      && (old(collection) != null ==> collection == old(collection))
      && (old(collection) == null && !old(Rebuilds()) ==> collection == old(pool.store[CACHE_KEY]))
      && (old(Rebuilds()) ==>
            && fresh(collection) && creator.calls == old(creator.calls) + 1 && dirty
            && CACHE_KEY in pool.deferred
            && pool.deferred == old(pool.deferred)[CACHE_KEY := pool.deferred[CACHE_KEY]]
            && fresh(pool.deferred[CACHE_KEY])
            && pool.deferred[CACHE_KEY] != collection
            && pool.deferred[CACHE_KEY].State() == old(Upcoming())
            && pool.deferred[CACHE_KEY].transformers == [])
      && (!old(Rebuilds()) ==>
            creator.calls == old(creator.calls) && dirty == old(dirty) && pool.deferred == old(pool.deferred))
      && pool.store == old(pool.store) && pool.commits == old(pool.commits)
    }

    /** The effect of `getCollection`: the collection handed out holds the store it was going to have. */
    twostate predicate Builds()
      reads this, pool, creator, collection
      reads if CACHE_KEY in pool.deferred then {pool.deferred[CACHE_KEY]} else {}
    {
      BuildEffects() && collection.State() == old(Upcoming())
    }

    method GetCollection() returns (c: ConfigCollection)
      modifies this, pool, creator
      ensures c == collection && Builds()
    {
      if collection != null {
        return collection;
      }
      var item := pool.GetItem(CACHE_KEY);
      if !flush && item.isHit {
        collection := item.value.value;
        return collection;
      }
      c := creator.Create();
      collection := c;
      var copy := c.GetNest();
      item := item.(value := Some(copy));
      dirty := true;
      var _ := pool.SaveDeferred(item);
    }

    /** `setCollection`: installs a collection, which `getCollection` then returns as is. */
    method SetCollection(c: ConfigCollection?)
      modifies this
      ensures collection == c && dirty == old(dirty)
    {
      collection := c;
    }

    /**
      `set` as written goes to `$this->collection` without building it.
      Before anything is built that is a method call on null, a fatal error,
      reported here as `ok == false` with nothing changed.
    */
    method Set(key: string, value: Value, meta: Value) returns (ok: bool)
      modifies collection
      ensures ok <==> collection != null
      ensures ok ==> collection.State() == ConfigState.Set(old(collection.State()), key, None, value, meta)
    {
      if collection == null {
        return false;
      }
      collection.Set(key, value, meta);
      ok := true;
    }

    /** `set` corrected to go through `getCollection`, like every other accessor. */
    method SetBuilt(key: string, value: Value, meta: Value)
      modifies this, pool, creator, Existing()
      ensures BuildEffects()
      ensures collection.State() == ConfigState.Set(old(Upcoming()), key, None, value, meta)
    {
      var c := GetCollection();
      c.Set(key, value, meta);
    }

    method Get(key: string) returns (r: Value)
      modifies this, pool, creator
      ensures r == GetSpec(old(Upcoming()), key)
      ensures Builds()
    {
      var c := GetCollection();
      r := c.Get(key);
    }

    method Exists(key: string) returns (r: bool)
      modifies this, pool, creator
      ensures r == ExistsSpec(old(Upcoming()), key)
      ensures Builds()
    {
      var c := GetCollection();
      r := c.Exists(key);
    }

    method Delete(key: string)
      modifies this, pool, creator, Existing()
      ensures BuildEffects()
      ensures collection.State() == ConfigState.Remove(old(Upcoming()), key, None)
    {
      var c := GetCollection();
      c.Delete(key);
    }

    method DeleteAll()
      modifies this, pool, creator, Existing()
      ensures BuildEffects()
      ensures collection.State() == ConfigState.RemoveAll(old(Upcoming()))
    {
      var c := GetCollection();
      c.DeleteAll();
    }

    method GetMetadata() returns (r: map<string, Value>)
      modifies this, pool, creator
      ensures r == MetadataView(old(Upcoming()))
      ensures Builds()
    {
      var c := GetCollection();
      r := c.GetMetadata();
    }

    method GetHistory() returns (r: map<string, seq<HistoryEntry>>)
      modifies this, pool, creator
      ensures r == HistoryView(old(Upcoming()))
      ensures Builds()
    {
      var c := GetCollection();
      r := c.GetHistory();
    }

    method GetNest() returns (r: ConfigCollection)
      modifies this, pool, creator
      ensures fresh(r) && r.State() == old(Upcoming()) && r.transformers == []
      ensures Builds()
    {
      var c := GetCollection();
      r := c.GetNest();
    }

    /** End of life (`__destruct`): the pool is committed exactly when a save is pending. */
    method Close()
      modifies pool
      ensures dirty ==> pool.store == old(pool.store) + old(pool.deferred) && pool.commits == old(pool.commits) + 1
      ensures dirty ==> pool.deferred == map[]
      ensures !dirty ==> pool.store == old(pool.store) && pool.deferred == old(pool.deferred)
      ensures !dirty ==> pool.commits == old(pool.commits)
    {
      if dirty {
        pool.Commit();
      }
    }
  }

  /**
    A local write after a rebuild changes the collection in use but not the
    clone queued for the pool, which keeps what the factory built.
  */
  method LocalEditsStayLocal(cc: CachedConfigCollection, key: string, value: Value)
    requires cc.collection == null && (cc.flush || CACHE_KEY !in cc.pool.store)
    modifies cc, cc.pool, cc.creator
    ensures cc.collection != null && CACHE_KEY in cc.pool.deferred
    ensures cc.pool.deferred[CACHE_KEY].State() == cc.creator.seed
    ensures cc.collection.State() == ConfigState.Set(cc.creator.seed, key, None, value, Arr([]))
  {
    var c := cc.GetCollection();
    var _ := cc.Set(key, value, Arr([]));
  }
}
