/**
  The current cached collection (src/Collections/CachedConfigCollection.php)
  and the delta collection it nests into
  (src/Collections/DeltaConfigCollection.php).

  The cached collection builds its inner collection at most once, from the
  pool entry `__CONFIG__` or else from a factory (deferring the save of what
  the factory built), and memoises every class lookup.  A delta holds its own
  copy of the parent's raw store, applies writes locally, and asks the parent
  for classes it has not altered.
*/
module CachedCollections {
  import opened Php
  import opened MiddlewareAware
  import opened ConfigState
  import opened CachePool
  import opened MemoryCollection
  import DeltaOverlay

  const CACHE_KEY: string := "__CONFIG__"

  /** `$class . '-' . $includeMiddleware`: PHP prints true as "1" and false as "". */
  function MemoKey(className: string, includeMiddleware: bool): string
  {
    className + "-" + (if includeMiddleware then "1" else "")
  }

  /** Distinct lookups never share a memo entry. */
  lemma MemoKeyInjective(c1: string, b1: bool, c2: string, b2: bool)
    requires MemoKey(c1, b1) == MemoKey(c2, b2)
    ensures c1 == c2 && b1 == b2
  {
    var k := MemoKey(c1, b1);
    assert k[|k| - 1] == (if b1 then '1' else '-');
    assert k[|k| - 1] == (if b2 then '1' else '-');
    assert c1 == k[..|c1|];
    assert c2 == k[..|c2|];
  }

  /**
    What an uncached lookup yields over the inner collection's store: the
    raw class config, or this collection's own chain ending in it (which,
    unlike the in-memory collection's, also runs for a class without config).
  */
  function Uncached(s: Snapshot, ms: seq<Middleware>, className: string, includeMiddleware: bool): (r: Value)
    ensures !includeMiddleware ==> r == RawClassConfig(s, className)
    ensures includeMiddleware && ms == [] ==> r == RawClassConfig(s, className)
  {
    var raw := RawClassConfig(s, className);
    if !includeMiddleware then raw else Chain(ms, Stored(raw))(className)
  }

  /** The collection factory: builds a fresh collection from a fixed seed and counts its calls. */
  class CollectionCreator {
    const seed: Snapshot
    var calls: nat

    constructor(seed: Snapshot)
      ensures this.seed == seed && calls == 0
    {
      this.seed := seed;
      calls := 0;
    }

    method Create() returns (c: MemoryConfigCollection)
      modifies this
      ensures fresh(c) && c.State() == seed && c.middlewares == []
      ensures calls == old(calls) + 1
    {
      c := new MemoryConfigCollection(seed.trackMetadata);
      c.Unserialize(seed);
      calls := calls + 1;
    }
  }

  class CachedConfigCollection {
    var pool: Pool?<MemoryConfigCollection>
    var collection: MemoryConfigCollection?
    var creator: CollectionCreator?
    var nestedMiddlewares: seq<Middleware>
    var flush: bool
    var dirty: bool
    var cache: map<string, Value>
    var middlewares: seq<Middleware>

    /** `create()`: no pool, no factory, nothing built. */
    constructor()
      ensures pool == null && collection == null && creator == null
      ensures nestedMiddlewares == [] && middlewares == [] && cache == map[]
      ensures !flush && !dirty
    {
      pool := null;
      collection := null;
      creator := null;
      nestedMiddlewares := [];
      flush := false;
      dirty := false;
      cache := map[];
      middlewares := [];
    }

    /**
      `getCollection` can answer without a fatal error: the collection is built,
      or a pool is installed and either serves a hit or a factory is installed.
    */
    predicate Buildable()
      reads this, pool
    {
      collection != null || (pool != null && ((!flush && CACHE_KEY in pool.store) || creator != null))
    }

    /** Building will call the factory: nothing built yet, and flushing or no pool entry. */
    predicate Rebuilds()
      reads this, pool
      requires Buildable()
    {
      collection == null && (flush || CACHE_KEY !in pool.store)
    }

    /** The store of the collection `getCollection` returns. */
    ghost function Upcoming(): Snapshot
      reads this, collection, pool
      reads if pool != null && CACHE_KEY in pool.store then {pool.store[CACHE_KEY]} else {}
      requires Buildable()
    {
      if collection != null then collection.State()
      else if !flush && CACHE_KEY in pool.store then pool.store[CACHE_KEY].State()
      else creator.seed
    }

    /** What a lookup of `className` answers: the memo entry, else an uncached lookup. */
    ghost function Answer(className: string, includeMiddleware: bool): Value
      reads this, collection, pool
      reads if pool != null && CACHE_KEY in pool.store then {pool.store[CACHE_KEY]} else {}
      requires Buildable()
    {
      var k := MemoKey(className, includeMiddleware);
      if k in cache then cache[k] else Uncached(Upcoming(), middlewares, className, includeMiddleware)
    }

    /**
      The effect of `getCollection`: the configuration fields are kept, the
      collection is built with the store it was going to have, and only a
      rebuild calls the factory, defers the save of its result and sets dirty.
    */
    twostate predicate Builds()
      reads this, pool, creator, collection
    {
      && pool == old(pool) && creator == old(creator) && flush == old(flush)
      && middlewares == old(middlewares) && nestedMiddlewares == old(nestedMiddlewares)
      && old(Buildable())
      && collection != null
      && collection.State() == old(Upcoming())
      && (old(collection) != null ==> collection == old(collection))
      && (old(collection) == null && !old(Rebuilds()) ==> collection == old(pool.store[CACHE_KEY]))
      && (old(Rebuilds()) ==>
            && fresh(collection) && collection.middlewares == []
            && creator.calls == old(creator.calls) + 1
            && pool.deferred == old(pool.deferred)[CACHE_KEY := collection]
            && dirty)
      && (!old(Rebuilds()) ==>
            && dirty == old(dirty)
            && (creator != null ==> creator.calls == old(creator.calls))
            && (pool != null ==> pool.deferred == old(pool.deferred)))
      && (pool != null ==> pool.store == old(pool.store) && pool.commits == old(pool.commits))
    }

    /**
      The effect of a memoised lookup under memo key `k` that answered `v`:
      the memo records `v`; a memo hit touches nothing else, and a miss
      builds the inner collection as `getCollection` does.
    */
    twostate predicate Memoises(k: string, v: Value)
      reads this, pool, creator, collection
    {
      && cache == old(cache)[k := v]
      && (k in old(cache) ==>
            && pool == old(pool) && creator == old(creator) && flush == old(flush)
            && middlewares == old(middlewares) && nestedMiddlewares == old(nestedMiddlewares)
            && collection == old(collection) && dirty == old(dirty)
            && (pool != null ==> pool.store == old(pool.store) && pool.deferred == old(pool.deferred)
                                 && pool.commits == old(pool.commits))
            && (creator != null ==> creator.calls == old(creator.calls)))
      && (k !in old(cache) ==> Builds())
    }

    method GetCollection() returns (c: MemoryConfigCollection)
      requires Buildable()
      modifies this, pool, creator
      ensures c == collection && Builds()
      ensures cache == old(cache)
    {
      if collection != null {
        return collection;
      }
      var item := pool.GetItem(CACHE_KEY);
      if !flush && item.isHit {
        collection := item.value.value;
        return collection;
      }
      c := creator.Create();
      collection := c;
      item := item.(value := Some(c));
      dirty := true;
      var _ := pool.SaveDeferred(item);
    }

    /** End of life (`__destruct`): the pool is committed exactly when a save is pending. */
    method Close()
      requires dirty ==> pool != null
      modifies pool
      ensures dirty ==> pool.store == old(pool.store) + old(pool.deferred) && pool.deferred == map[]
      ensures dirty ==> pool.commits == old(pool.commits) + 1
      ensures !dirty && pool != null ==>
        pool.store == old(pool.store) && pool.deferred == old(pool.deferred) && pool.commits == old(pool.commits)
    {
      if dirty {
        pool.Commit();
      }
    }

    /** `setPool`: with flush on, the new pool is cleared. */
    method SetPool(p: Pool<MemoryConfigCollection>)
      modifies this, p
      ensures pool == p && flush == old(flush) && collection == old(collection) && dirty == old(dirty)
      ensures cache == old(cache) && creator == old(creator)
      ensures middlewares == old(middlewares) && nestedMiddlewares == old(nestedMiddlewares)
      ensures flush ==> p.store == map[] && p.deferred == map[]
      ensures !flush ==> p.store == old(p.store) && p.deferred == old(p.deferred)
      ensures p.commits == old(p.commits)
    {
      pool := p;
      if flush {
        p.Clear();
      }
    }

    /** `setFlush`: turning flush on clears the pool, when there is one. */
    method SetFlush(f: bool)
      modifies this, pool
      ensures flush == f && pool == old(pool) && collection == old(collection) && dirty == old(dirty)
      ensures cache == old(cache) && creator == old(creator)
      ensures f && pool != null ==> pool.store == map[] && pool.deferred == map[]
      ensures !f && pool != null ==> pool.store == old(pool.store) && pool.deferred == old(pool.deferred)
      ensures pool != null ==> pool.commits == old(pool.commits)
      ensures middlewares == old(middlewares) && nestedMiddlewares == old(nestedMiddlewares)
    {
      flush := f;
      if f && pool != null {
        pool.Clear();
      }
    }

    method SetCollectionCreator(c: CollectionCreator)
      modifies this
      ensures creator == c && pool == old(pool) && collection == old(collection) && flush == old(flush)
      ensures dirty == old(dirty) && cache == old(cache)
      ensures middlewares == old(middlewares) && nestedMiddlewares == old(nestedMiddlewares)
    {
      creator := c;
    }

    method SetNestedMiddlewares(ms: seq<Middleware>)
      modifies this
      ensures nestedMiddlewares == ms && pool == old(pool) && collection == old(collection)
      ensures creator == old(creator) && flush == old(flush) && dirty == old(dirty) && cache == old(cache)
      ensures middlewares == old(middlewares)
    {
      nestedMiddlewares := ms;
    }

    method SetMiddlewares(ms: seq<Middleware>)
      modifies this
      ensures middlewares == ms && pool == old(pool) && collection == old(collection)
      ensures creator == old(creator) && flush == old(flush) && dirty == old(dirty) && cache == old(cache)
      ensures nestedMiddlewares == old(nestedMiddlewares)
    {
      middlewares := ms;
    }

    method GetUncachedClassConfig(className: string, includeMiddleware: bool) returns (r: Value)
      requires Buildable()
      modifies this, pool, creator
      ensures r == Uncached(old(Upcoming()), middlewares, className, includeMiddleware)
      ensures Builds() && cache == old(cache)
    {
      var c := GetCollection();
      var raw := c.Get(className, None, false);
      if !includeMiddleware {
        return raw;
      }
      r := CallMiddleware(middlewares, className, Stored(raw));
    }

    /** The memoised lookup; the memo is never invalidated. */
    method GetClassConfig(className: string, includeMiddleware: bool) returns (r: Value)
      requires Buildable()
      modifies this, pool, creator
      ensures pool == old(pool) && creator == old(creator) && middlewares == old(middlewares)
      ensures r == old(Answer(className, includeMiddleware))
      ensures Memoises(MemoKey(className, includeMiddleware), r)
      ensures nestedMiddlewares == old(nestedMiddlewares) && flush == old(flush)
      ensures Buildable()
    {
      var k := MemoKey(className, includeMiddleware);
      if k in cache {
        return cache[k];
      }
      r := GetUncachedClassConfig(className, includeMiddleware);
      cache := cache[k := r];
    }

    method Get(className: string, name: Option<string>, includeMiddleware: bool) returns (r: Value)
      requires Buildable()
      modifies this, pool, creator
      ensures r == Field(old(Answer(Lower(className), includeMiddleware)), name)
      ensures Memoises(MemoKey(Lower(className), includeMiddleware), old(Answer(Lower(className), includeMiddleware)))
      ensures pool == old(pool) && creator == old(creator) && middlewares == old(middlewares)
      ensures nestedMiddlewares == old(nestedMiddlewares) && flush == old(flush)
      ensures Buildable()
    {
      var config := GetClassConfig(Lower(className), includeMiddleware);
      if HasName(name) {
        if config.Arr? && IsSet(Php.Get(config.entries, StrKey(name.value))) {
          r := Php.Get(config.entries, StrKey(name.value)).value;
        } else {
          r := Null;
        }
      } else {
        r := config;
      }
    }

    method Exists(className: string, name: Option<string>, includeMiddleware: bool) returns (r: bool)
      requires Buildable()
      modifies this, pool, creator
      ensures r == ConfigState.Exists(old(Answer(Lower(className), includeMiddleware)), name)
      ensures Memoises(MemoKey(Lower(className), includeMiddleware), old(Answer(Lower(className), includeMiddleware)))
      ensures pool == old(pool) && creator == old(creator) && middlewares == old(middlewares)
      ensures nestedMiddlewares == old(nestedMiddlewares) && flush == old(flush)
      ensures Buildable()
    {
      var config := Get(className, None, includeMiddleware);
      if config.Null? {
        return false;
      }
      if HasName(name) {
        r := config.Arr? && HasKey(config.entries, StrKey(name.value));
      } else {
        r := true;
      }
    }

    method GetAll() returns (r: map<string, Value>)
      requires Buildable()
      modifies this, pool, creator
      ensures r == old(Upcoming()).config
      ensures Builds() && cache == old(cache)
    {
      var c := GetCollection();
      r := c.GetAll();
    }

    method GetMetadata() returns (r: map<string, Value>)
      requires Buildable()
      modifies this, pool, creator
      ensures r == MetadataView(old(Upcoming()))
      ensures Builds() && cache == old(cache)
    {
      var c := GetCollection();
      r := c.GetMetadata();
    }

    method GetHistory() returns (r: map<string, seq<HistoryEntry>>)
      requires Buildable()
      modifies this, pool, creator
      ensures r == HistoryView(old(Upcoming()))
      ensures Builds() && cache == old(cache)
    {
      var c := GetCollection();
      r := c.GetHistory();
    }

    /** A delta over this collection, carrying the nested middlewares. */
    method Nest() returns (d: DeltaConfigCollection)
      requires Buildable()
      modifies this, pool, creator
      ensures fresh(d) && fresh(d.base)
      ensures d.parent == this && d.base.middlewares == nestedMiddlewares
      ensures d.base.State() == Empty(false).(config := old(Upcoming()).config)
      ensures d.altered == {} && d.configMiddlewareCache == map[]
      ensures Builds() && cache == old(cache)
      ensures d.base != collection
      ensures pool != null && CACHE_KEY in pool.store ==> d.base != pool.store[CACHE_KEY]
    {
      d := new DeltaConfigCollection(this);
      d.base.SetMiddlewares(nestedMiddlewares);
    }
  }

  class DeltaConfigCollection {
    /** The state this class inherits from the in-memory collection. */
    const base: MemoryConfigCollection
    var parent: CachedConfigCollection
    var altered: set<string>
    var configMiddlewareCache: map<string, Value>

    function Overlay(): DeltaOverlay.Overlay
      reads this, base
    {
      DeltaOverlay.Overlay(base.State(), altered, configMiddlewareCache)
    }

    constructor(p: CachedConfigCollection)
      requires p.Buildable()
      modifies p, p.pool, p.creator
      ensures fresh(base) && parent == p && base.middlewares == [] && base != p.collection
      ensures base.State() == Empty(false).(config := old(p.Upcoming()).config)
      ensures altered == {} && configMiddlewareCache == map[]
      ensures p.Builds() && p.cache == old(p.cache)
    {
      base := new MemoryConfigCollection(false);
      parent := p;
      altered := {};
      configMiddlewareCache := map[];
      new;
      SetParent(p);
    }

    /** `setParent`: the raw store becomes a copy of the parent's, taken now. */
    method SetParent(p: CachedConfigCollection)
      requires p.Buildable() && p.collection != base
      requires p.pool != null && CACHE_KEY in p.pool.store ==> p.pool.store[CACHE_KEY] != base
      modifies this, base, p, p.pool, p.creator
      ensures parent == p && base.config == old(p.Upcoming()).config && p.collection != base
      ensures base.metadata == old(base.metadata) && base.history == old(base.history)
      ensures base.trackMetadata == old(base.trackMetadata) && base.middlewares == old(base.middlewares)
      ensures altered == old(altered) && configMiddlewareCache == old(configMiddlewareCache)
      ensures p.Builds() && p.cache == old(p.cache)
    {
      parent := p;
      var all := p.GetAll();
      base.config := all;
    }

    /** `alter`, corrected to record the lowercased class. */
    method Alter(className: string)
      modifies this
      ensures Overlay() == DeltaOverlay.Alter(old(Overlay()), className)
      ensures parent == old(parent)
    {
      var key := Lower(className);
      altered := altered + {key};
      configMiddlewareCache := configMiddlewareCache - {key};
    }

    /** `alter` as written: the class is recorded under the name as passed. */
    method AlterAsWritten(className: string)
      modifies this
      ensures Overlay() == DeltaOverlay.AlterAsWritten(old(Overlay()), className)
      ensures parent == old(parent)
    {
      altered := altered + {className};
      configMiddlewareCache := configMiddlewareCache - {className};
    }

    method IsAltered(className: string) returns (r: bool)
      ensures r <==> className in altered
    {
      r := className in altered;
    }

    method Set(className: string, name: Option<string>, data: Value, meta: Value)
      requires HasName(name) ==> NamedWritable(base.State(), className)
      modifies this, base
      ensures Overlay() == DeltaOverlay.Set(old(Overlay()), className, name, data, meta)
      ensures parent == old(parent) && base.middlewares == old(base.middlewares)
    {
      Alter(className);
      base.Set(className, name, data, meta);
    }

    /** `set` as written, through the as-written `alter`. */
    method SetAsWritten(className: string, name: Option<string>, data: Value, meta: Value)
      requires HasName(name) ==> NamedWritable(base.State(), className)
      modifies this, base
      ensures Overlay() == DeltaOverlay.SetAsWritten(old(Overlay()), className, name, data, meta)
      ensures parent == old(parent) && base.middlewares == old(base.middlewares)
    {
      AlterAsWritten(className);
      base.Set(className, name, data, meta);
    }

    /** `remove` as written, through the as-written `alter`. */
    method RemoveAsWritten(className: string, name: Option<string>)
      modifies this, base
      ensures Overlay() == DeltaOverlay.RemoveAsWritten(old(Overlay()), className, name)
      ensures parent == old(parent) && base.middlewares == old(base.middlewares)
    {
      AlterAsWritten(className);
      base.Remove(className, name);
    }

    method Remove(className: string, name: Option<string>)
      modifies this, base
      ensures Overlay() == DeltaOverlay.Remove(old(Overlay()), className, name)
      ensures parent == old(parent) && base.middlewares == old(base.middlewares)
    {
      Alter(className);
      base.Remove(className, name);
    }

    method RemoveAll()
      modifies this, base
      ensures Overlay() == DeltaOverlay.RemoveAll(old(Overlay()))
      ensures parent == old(parent) && base.middlewares == old(base.middlewares)
    {
      base.RemoveAll();
      configMiddlewareCache := map[];
    }

    /**
      The delta's lookup: answered locally as the plan says, or by the
      parent's memoised middleware-applied lookup; a middleware-applied
      answer for a stored class is cached.
    */
    method GetClassConfig(className: string, includeMiddleware: bool) returns (r: Value)
      requires parent.Buildable()
      modifies this, parent, parent.pool, parent.creator
      ensures parent == old(parent) && base.middlewares == old(base.middlewares)
      ensures var plan := DeltaOverlay.Resolve(old(Overlay()), base.middlewares, className, includeMiddleware);
        && (plan.Answer? ==> r == plan.value)
        && (plan.Delegate? ==> r == old(parent.Answer(plan.key, true)) && parent.Memoises(MemoKey(plan.key, true), r))
        && (plan.Answer? ==> unchanged(parent) && (parent.pool != null ==> unchanged(parent.pool))
                             && (parent.creator != null ==> unchanged(parent.creator)))
      ensures Overlay() == DeltaOverlay.Fill(old(Overlay()), className, includeMiddleware, r)
    {
      var key := Lower(className);
      if !IsSet(Lookup(base.config, key)) {
        return Null;
      }
      if !includeMiddleware {
        return base.config[key];
      }
      if key in configMiddlewareCache {
        return configMiddlewareCache[key];
      }
      var isAltered := IsAltered(key);
      if isAltered {
        r := base.GetClassConfig(key, true);
        LowerIdempotent(className);
      } else {
        LowerIdempotent(className);
        r := parent.Get(key, None, true);
      }
      configMiddlewareCache := configMiddlewareCache[key := r];
    }
  }

  /** A memoised answer survives any later change to the inner collection. */
  method MemoOutlivesChanges(cc: CachedConfigCollection, className: string, data: Value) returns (r1: Value, r2: Value)
    requires cc.collection != null
    modifies cc, cc.pool, cc.creator, cc.collection
    ensures r1 == r2
  {
    r1 := cc.GetClassConfig(className, true);
    var c := cc.collection;
    c.Set(className, None, data, Arr([]));
    r2 := cc.GetClassConfig(className, true);
  }

  /**
    A write to a delta stays in the delta: the parent's collection keeps the
    store it was built with, and the delta reads its own value back.
  */
  method DeltaWritesStayLocal(cc: CachedConfigCollection, c: string, v: Value)
    returns (before: Snapshot, after: Snapshot, mine: Value)
    requires cc.Buildable()
    modifies cc, cc.pool, cc.creator
    ensures before == old(cc.Upcoming()) && after == before
    ensures mine == v
  {
    var d := cc.Nest();
    before := cc.collection.State();
    d.Set(c, None, v, Arr([]));
    after := cc.collection.State();
    mine := d.GetClassConfig(c, false);
  }

  /**
    A write to a delta does not change what its parent answers for the
    class: the answer before and after the write is the one the parent gave
    before the delta was nested.
  */
  method DeltaWriteKeepsParentAnswer(cc: CachedConfigCollection, c: string, v: Value)
    returns (seen: Value, seenAgain: Value)
    requires cc.Buildable()
    modifies cc, cc.pool, cc.creator
    ensures seen == seenAgain == old(cc.Answer(Lower(c), true))
  {
    var d := cc.Nest();
    seen := cc.GetClassConfig(Lower(c), true);
    d.Set(c, None, v, Arr([]));
    seenAgain := cc.GetClassConfig(Lower(c), true);
  }

  /**
    A delta's raw store is a copy frozen when it was nested, while its
    middleware-applied reads of unaltered classes go to the live parent: a
    later write to the parent is invisible to the raw read and visible to
    the delegated one, unless the parent had memoised that class.
  */
  method FrozenStoreLiveDelegation(cc: CachedConfigCollection, c: string, w: Value)
    returns (frozen: Value, live: Value)
    requires cc.Buildable()
    requires IsSet(Lookup(cc.Upcoming().config, Lower(c)))
    modifies cc, cc.pool, cc.creator, cc.collection
    modifies if cc.pool != null && CACHE_KEY in cc.pool.store then {cc.pool.store[CACHE_KEY]} else {}
    ensures frozen == old(cc.Upcoming()).config[Lower(c)]
    ensures MemoKey(Lower(c), true) in old(cc.cache) ==> live == old(cc.cache)[MemoKey(Lower(c), true)]
    ensures MemoKey(Lower(c), true) !in old(cc.cache) ==>
      live == Uncached(ConfigState.Set(old(cc.Upcoming()), c, None, w, Arr([])), cc.middlewares, Lower(c), true)
  {
    var d := cc.Nest();
    cc.collection.Set(c, None, w, Arr([]));
    frozen := d.GetClassConfig(c, false);
    LowerIdempotent(c);
    live := d.GetClassConfig(c, true);
  }
}
