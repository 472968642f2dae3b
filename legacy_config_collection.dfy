/**
  The first-generation collection (src/micmania1/config/ConfigCollection.php):
  one config value per lowercased key, no named fields and no middleware,
  with the same metadata tracking as the current collection.
*/
module LegacyCollection {
  import opened Php
  import opened ConfigState

  /** A transformer object; what it loads is outside this model. */
  datatype Transformer = Transformer(id: nat)

  /** `get($key)`: the stored value, null for a missing key. */
  function GetSpec(s: Snapshot, key: string): (r: Value)
    ensures Lower(key) !in s.config ==> r == Null
    ensures Lower(key) in s.config ==> r == s.config[Lower(key)]
  {
    RawClassConfig(s, key)
  }

  /** `exists($key)`: `array_key_exists`, so a key stored as null exists. */
  predicate ExistsSpec(s: Snapshot, key: string)
  {
    Lower(key) in s.config
  }

  /** The legacy `set` is the current unnamed `set`. */
  lemma SetReplaces(s: Snapshot, key: string, other: string, value: Value, meta: Value)
    requires Lower(other) == Lower(key)
    ensures GetSpec(ConfigState.Set(s, key, None, value, meta), other) == value
    ensures ExistsSpec(ConfigState.Set(s, key, None, value, meta), other)
  {
    SetThenRead(s, key, other, None, value, meta);
  }

  /** A key stored as null exists although it reads as null. */
  lemma NullKeyExists(s: Snapshot, key: string, meta: Value)
    ensures GetSpec(ConfigState.Set(s, key, None, Null, meta), key) == Null
    ensures ExistsSpec(ConfigState.Set(s, key, None, Null, meta), key)
  {
  }

  /** `delete` removes the config entry only: metadata and history stay. */
  lemma DeleteKeepsMetadata(s: Snapshot, key: string)
    ensures !ExistsSpec(ConfigState.Remove(s, key, None), key)
    ensures ConfigState.Remove(s, key, None).metadata == s.metadata
    ensures ConfigState.Remove(s, key, None).history == s.history
  {
  }

  class ConfigCollection {
    var config: map<string, Value>
    var history: map<string, seq<HistoryEntry>>
    var metadata: map<string, Value>
    var transformers: seq<Transformer>
    var trackMetadata: bool

    function State(): Snapshot
      reads this
    {
      Snapshot(config, history, metadata, trackMetadata)
    }

    /** What the transformers load at construction is not part of this model. */
    constructor(transformers: seq<Transformer>, trackMetadata: bool)
      ensures State() == Empty(trackMetadata) && this.transformers == transformers
    {
      config := map[];
      history := map[];
      metadata := map[];
      this.transformers := transformers;
      this.trackMetadata := trackMetadata;
    }

    method Set(key: string, value: Value, meta: Value)
      modifies this
      ensures State() == ConfigState.Set(old(State()), key, None, value, meta)
      ensures transformers == old(transformers)
    {
      var k := Lower(key);
      if trackMetadata {
        if IsSet(Lookup(metadata, k)) && IsSet(Lookup(config, k)) {
          var past := if k in history then history[k] else [];
          history := history[k := [HistoryEntry(config[k], metadata[k])] + past];
        }
        metadata := metadata[k := meta];
      }
      config := config[k := value];
    }

    method Get(key: string) returns (r: Value)
      ensures r == GetSpec(State(), key)
    {
      var k := Lower(key);
      LowerIdempotent(key);
      var present := Exists(k);
      if !present {
        return Null;
      }
      r := config[k];
    }

    method Exists(key: string) returns (r: bool)
      ensures r == ExistsSpec(State(), key)
    {
      LowerIdempotent(key);
      r := Lower(key) in config;
    }

    method Delete(key: string)
      modifies this
      ensures State() == ConfigState.Remove(old(State()), key, None)
      ensures transformers == old(transformers)
    {
      config := config - {Lower(key)};
    }

    method DeleteAll()
      modifies this
      ensures State() == ConfigState.RemoveAll(old(State()))
      ensures transformers == old(transformers)
    {
      config := map[];
      metadata := map[];
      history := map[];
    }

    method GetMetadata() returns (r: map<string, Value>)
      ensures r == MetadataView(State())
    {
      if !trackMetadata {
        return map[];
      }
      r := metadata;
    }

    method GetHistory() returns (r: map<string, seq<HistoryEntry>>)
      ensures r == HistoryView(State())
    {
      if !trackMetadata {
        return map[];
      }
      r := history;
    }

    /** The four fields; the transformers are not serialised. */
    method Serialize() returns (r: Snapshot)
      ensures r == State()
    {
      r := Snapshot(config, history, metadata, trackMetadata);
    }

    method Unserialize(s: Snapshot)
      modifies this
      ensures State() == s
      ensures transformers == old(transformers)
    {
      config := s.config;
      history := s.history;
      metadata := s.metadata;
      trackMetadata := s.trackMetadata;
    }

    /** `getNest()`: a clone, which `__clone` strips of its transformers. */
    method GetNest() returns (r: ConfigCollection)
      ensures fresh(r)
      ensures r.State() == State() && r.transformers == []
    {
      r := new ConfigCollection([], trackMetadata);
      r.config := config;
      r.history := history;
      r.metadata := metadata;
    }
  }

  /**
    `unserialize(serialize())` restores the four fields on a collection
    built with any transformers, and leaves those transformers alone.
  */
  method SerializeRoundTrip(c: ConfigCollection, ts: seq<Transformer>) returns (copy: ConfigCollection)
    ensures copy.State() == c.State() && copy.transformers == ts && copy != c
  {
    var s := c.Serialize();
    copy := new ConfigCollection(ts, !c.trackMetadata);
    copy.Unserialize(s);
  }
}
