/**
  The current in-memory collection (src/Collections/MemoryConfigCollection.php):
  a mutable store of class configs, lowercased class names as keys, with
  optional metadata tracking and a middleware chain applied on read.
*/
module MemoryCollection {
  import opened Php
  import opened MiddlewareAware
  import opened ConfigState
  import Priority

  /** The value `merge` stores: a deep merge when both sides are arrays, else the new value. */
  function MergeValue(value: Value, existing: Value): (r: Value)
    ensures !(value.Arr? && existing.Arr?) ==> r == value
    ensures value.Arr? && existing.Arr? ==> r.Arr?
  {
    if value.Arr? && existing.Arr? then Arr(Priority.MergeArray(value.entries, existing.entries))
    else value
  }

  /** What `merge($class, $name, $value)` leaves: a plain `set` of the merged value with empty metadata. */
  function MergeSpec(s: Snapshot, className: string, name: Option<string>, value: Value): Snapshot
    requires HasName(name) ==> NamedWritable(s, className)
  {
    Set(s, className, name, MergeValue(value, Field(RawClassConfig(s, className), name)), Arr([]))
  }

  /**
    Merging an array into a class config that holds an array under a string
    key keeps the low-only keys and gives every string key of the new array
    its merged value.
  */
  lemma MergeSpecMerges(s: Snapshot, className: string, value: Value, k: Key)
    requires value.Arr? && RawClassConfig(s, className).Arr?
    requires k.StrKey?
    ensures RawClassConfig(MergeSpec(s, className, None, value), className)
      == Arr(Priority.MergeArray(value.entries, RawClassConfig(s, className).entries))
    ensures (forall i | 0 <= i < |value.entries| :: value.entries[i].0 != k) ==>
      Get(RawClassConfig(MergeSpec(s, className, None, value), className).entries, k)
        == Get(RawClassConfig(s, className).entries, k)
  {
    SetThenRead(s, className, className, None,
      MergeValue(value, RawClassConfig(s, className)), Arr([]));
    if forall i | 0 <= i < |value.entries| :: value.entries[i].0 != k {
      Priority.MergeArrayKeepsUnmentionedStrKey(value.entries, RawClassConfig(s, className).entries, k);
    }
  }

  class MemoryConfigCollection {
    var config: map<string, Value>
    var history: map<string, seq<HistoryEntry>>
    var metadata: map<string, Value>
    var trackMetadata: bool
    var middlewares: seq<Middleware>

    function State(): Snapshot
      reads this
    {
      Snapshot(config, history, metadata, trackMetadata)
    }

    constructor(trackMetadata: bool)
      ensures State() == Empty(trackMetadata) && middlewares == []
    {
      config := map[];
      history := map[];
      metadata := map[];
      this.trackMetadata := trackMetadata;
      middlewares := [];
    }

    /** The metadata bookkeeping of `set`, for the lowercased class `key`. */
    method Track(key: string, meta: Value)
      modifies this
      ensures State() == ConfigState.Track(old(State()), key, meta)
      ensures middlewares == old(middlewares)
    {
      if trackMetadata {
        if IsSet(Lookup(metadata, key)) && IsSet(Lookup(config, key)) {
          var past := if key in history then history[key] else [];
          history := history[key := [HistoryEntry(config[key], metadata[key])] + past];
        }
        metadata := metadata[key := meta];
      }
    }

    method Set(className: string, name: Option<string>, data: Value, meta: Value)
      requires HasName(name) ==> NamedWritable(State(), className)
      modifies this
      ensures State() == ConfigState.Set(old(State()), className, name, data, meta)
      ensures middlewares == old(middlewares)
    {
      var key := Lower(className);
      Track(key, meta);
      if HasName(name) {
        if !IsSet(Lookup(config, key)) {
          config := config[key := Arr([])];
        }
        config := config[key := Arr(Put(config[key].entries, StrKey(name.value), data))];
      } else {
        config := config[key := data];
      }
    }

    method GetClassConfig(className: string, includeMiddleware: bool) returns (r: Value)
      ensures r == ClassConfig(State(), middlewares, className, includeMiddleware)
    {
      var key := Lower(className);
      if !IsSet(Lookup(config, key)) {
        return Null;
      }
      if includeMiddleware {
        r := CallMiddleware(middlewares, key, Stored(config[key]));
      } else {
        r := config[key];
      }
    }

    method Get(className: string, name: Option<string>, includeMiddleware: bool) returns (r: Value)
      ensures r == Field(ClassConfig(State(), middlewares, className, includeMiddleware), name)
    {
      var key := Lower(className);
      LowerIdempotent(className);
      var classConfig := GetClassConfig(key, includeMiddleware);
      if HasName(name) {
        if classConfig.Arr? && IsSet(Php.Get(classConfig.entries, StrKey(name.value))) {
          r := Php.Get(classConfig.entries, StrKey(name.value)).value;
        } else {
          r := Null;
        }
      } else {
        r := classConfig;
      }
    }

    method Exists(className: string, name: Option<string>, includeMiddleware: bool) returns (r: bool)
      ensures r == ConfigState.Exists(ClassConfig(State(), middlewares, className, includeMiddleware), name)
    {
      var classConfig := Get(className, None, includeMiddleware);
      if classConfig.Null? {
        return false;
      }
      if HasName(name) {
        r := classConfig.Arr? && HasKey(classConfig.entries, StrKey(name.value));
      } else {
        r := true;
      }
    }

    method Remove(className: string, name: Option<string>)
      modifies this
      ensures State() == ConfigState.Remove(old(State()), className, name)
      ensures middlewares == old(middlewares)
    {
      var key := Lower(className);
      if HasName(name) {
        if key in config && config[key].Arr? {
          config := config[key := Arr(Unset(config[key].entries, StrKey(name.value)))];
        }
      } else {
        config := config - {key};
      }
    }

    method RemoveAll()
      modifies this
      ensures State() == ConfigState.RemoveAll(old(State()))
      ensures middlewares == old(middlewares)
    {
      config := map[];
      metadata := map[];
      history := map[];
    }

    /** The raw store, without middleware. */
    method GetAll() returns (r: map<string, Value>)
      ensures r == config
      ensures forall c :: RawClassConfig(State(), c) == (if Lower(c) in r then r[Lower(c)] else Null)
    {
      r := config;
    }

    method Merge(className: string, name: Option<string>, value: Value)
      requires HasName(name) ==> NamedWritable(State(), className)
      modifies this
      ensures State() == MergeSpec(old(State()), className, name, value)
      ensures middlewares == old(middlewares)
    {
      var existing := Get(className, name, false);
      var v := value;
      if value.Arr? && existing.Arr? {
        v := Arr(Priority.MergeArray(value.entries, existing.entries));
      }
      Set(className, name, v, Arr([]));
    }

    /** `update`: a synonym of `merge`. */
    method Update(className: string, name: Option<string>, value: Value)
      requires HasName(name) ==> NamedWritable(State(), className)
      modifies this
      ensures State() == MergeSpec(old(State()), className, name, value)
      ensures middlewares == old(middlewares)
    {
      Merge(className, name, value);
    }

    method GetMetadata() returns (r: map<string, Value>)
      ensures !trackMetadata ==> r == map[]
      ensures trackMetadata ==> r == metadata
    {
      if !trackMetadata {
        return map[];
      }
      r := metadata;
    }

    method GetHistory() returns (r: map<string, seq<HistoryEntry>>)
      ensures !trackMetadata ==> r == map[]
      ensures trackMetadata ==> r == history
    {
      if !trackMetadata {
        return map[];
      }
      r := history;
    }

    /** Refuses while middlewares are attached; otherwise yields the four fields. */
    method Serialize() returns (r: Result<Snapshot>)
      ensures middlewares != [] <==> r.Failure?
      ensures r.Success? ==> r.value == State()
    {
      if middlewares != [] {
        return Failure("Can't serialise with middlewares");
      }
      r := Success(State());
    }

    method Unserialize(s: Snapshot)
      modifies this
      ensures State() == s
      ensures middlewares == old(middlewares)
    {
      config := s.config;
      history := s.history;
      metadata := s.metadata;
      trackMetadata := s.trackMetadata;
    }

    /** `clone $this`: a new collection with the same store and middlewares. */
    method Nest() returns (r: MemoryConfigCollection)
      ensures fresh(r)
      ensures r.State() == State() && r.middlewares == middlewares
    {
      r := new MemoryConfigCollection(trackMetadata);
      r.config := config;
      r.history := history;
      r.metadata := metadata;
      r.middlewares := middlewares;
    }

    method GetMiddlewares() returns (r: seq<Middleware>)
      ensures r == middlewares
    {
      r := middlewares;
    }

    method SetMiddlewares(ms: seq<Middleware>)
      modifies this
      ensures middlewares == ms && State() == old(State())
    {
      middlewares := ms;
    }

    method AddMiddleware(m: Middleware)
      modifies this
      ensures middlewares == MiddlewareAware.AddMiddleware(old(middlewares), m)
      ensures State() == old(State())
    {
      middlewares := middlewares + [m];
    }
  }

  /**
    `unserialize(serialize())`: a collection without middlewares serialises,
    and a collection loaded from the result holds the same four fields;
    one with middlewares refuses.
  */
  method SerializeRoundTrip(c: MemoryConfigCollection) returns (copy: MemoryConfigCollection?)
    ensures c.middlewares == [] <==> copy != null
    ensures copy != null ==> copy.State() == c.State() && copy != c
  {
    var s := c.Serialize();
    if s.Failure? {
      return null;
    }
    copy := new MemoryConfigCollection(false);
    copy.Unserialize(s.value);
  }
}
