/**
  The cache pools the collections and middlewares write to, reduced to an
  in-memory store with a deferred-write queue, and the key normalisation
  both generations use for pool keys.
*/
module CachePool {
  import opened Php

  /** What `getItem($key)` hands out: the key, whether it hit, and the value it carries. */
  datatype CacheItem<T> = CacheItem(key: string, isHit: bool, value: Option<T>)

  /** The argument of `save`: an item, or a bare value passed where an item belongs. */
  datatype SaveArg<T> = SaveItem(item: CacheItem<T>) | SaveRaw(raw: T)

  class Pool<T> {
    /** Committed items. */
    var store: map<string, T>
    /** Items queued by `saveDeferred`, written on `commit`. */
    var deferred: map<string, T>
    /** How many times `commit` ran. */
    var commits: nat

    constructor()
      ensures store == map[] && deferred == map[] && commits == 0
    {
      store := map[];
      deferred := map[];
      commits := 0;
    }

    /** A hit exactly when the key has a committed value, which the item then carries. */
    method GetItem(key: string) returns (item: CacheItem<T>)
      ensures item.key == key
      ensures item.isHit <==> key in store
      ensures item.isHit ==> item.value == Some(store[key])
      ensures !item.isHit ==> item.value == None
    {
      if key in store {
        item := CacheItem(key, true, Some(store[key]));
      } else {
        item := CacheItem(key, false, None);
      }
    }

    /**
      Stores an item that carries a value; refuses (and stores nothing) for a
      bare value or an empty item.
    */
    method Save(arg: SaveArg<T>) returns (ok: bool)
      modifies this
      ensures ok <==> arg.SaveItem? && arg.item.value.Some?
      ensures ok ==> store == old(store)[arg.item.key := arg.item.value.value]
      ensures !ok ==> store == old(store)
      ensures deferred == old(deferred) && commits == old(commits)
    {
      if arg.SaveRaw? || arg.item.value.None? {
        return false;
      }
      store := store[arg.item.key := arg.item.value.value];
      ok := true;
    }

    method SaveDeferred(item: CacheItem<T>) returns (ok: bool)
      modifies this
      ensures ok <==> item.value.Some?
      ensures ok ==> deferred == old(deferred)[item.key := item.value.value]
      ensures !ok ==> deferred == old(deferred)
      ensures store == old(store) && commits == old(commits)
    {
      if item.value.None? {
        return false;
      }
      deferred := deferred[item.key := item.value.value];
      ok := true;
    }

    /** Writes the deferred items over the committed ones. */
    method Commit()
      modifies this
      ensures store == old(store) + old(deferred)
      ensures deferred == map[]
      ensures commits == old(commits) + 1
    {
      store := store + deferred;
      deferred := map[];
      commits := commits + 1;
    }

    method Clear()
      modifies this
      ensures store == map[] && deferred == map[]
      ensures commits == old(commits)
    {
      store := map[];
      deferred := map[];
    }
  }

  /**
    `normaliseKey`: lowercase, then every backslash becomes a comma (a
    backslash is not allowed in a pool key).
  */
  function NormaliseKey(key: string): (r: string)
    ensures |r| == |key|
    ensures forall i | 0 <= i < |r| :: r[i] != '\\' && !IsUpper(r[i])
    ensures forall i | 0 <= i < |key| && key[i] != '\\' && !IsUpper(key[i]) :: r[i] == key[i]
  {
    ReplaceChar(Lower(key), '\\', ',')
  }

  /** A normalised key is its own normal form. */
  lemma NormaliseKeyIdempotent(key: string)
    ensures NormaliseKey(NormaliseKey(key)) == NormaliseKey(key)
  {
    var r := NormaliseKey(key);
    assert forall i | 0 <= i < |r| :: NormaliseKey(r)[i] == r[i];
  }

  /** The character a key position normalises to. */
  function NormalChar(c: char): char
  {
    if LowerChar(c) == '\\' then ',' else LowerChar(c)
  }

  /**
    Two class names share a pool key exactly when they have the same length
    and agree position by position once case and the backslash/comma
    difference are ignored.
  */
  lemma SameKeyIff(a: string, b: string)
    ensures NormaliseKey(a) == NormaliseKey(b) <==>
      |a| == |b| && forall i | 0 <= i < |a| :: NormalChar(a[i]) == NormalChar(b[i])
  {
    if |a| == |b| && forall i | 0 <= i < |a| :: NormalChar(a[i]) == NormalChar(b[i]) {
      assert forall i | 0 <= i < |a| :: NormaliseKey(a)[i] == NormalChar(a[i]);
      assert forall i | 0 <= i < |b| :: NormaliseKey(b)[i] == NormalChar(b[i]);
    }
    if NormaliseKey(a) == NormaliseKey(b) {
      forall i | 0 <= i < |a| ensures NormalChar(a[i]) == NormalChar(b[i]) {
        assert NormaliseKey(a)[i] == NormalChar(a[i]);
        assert NormaliseKey(b)[i] == NormalChar(b[i]);
      }
    }
  }

  /** A namespaced class and its lowercase, comma-separated spelling collide. */
  lemma NamespacedClassCollides()
    ensures NormaliseKey("App\\Foo") == NormaliseKey("app,foo") == "app,foo"
  {
    assert NormaliseKey("App\\Foo") == "app,foo";
    assert NormaliseKey("app,foo") == "app,foo";
  }
}
