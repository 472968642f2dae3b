/**
  The state an in-memory config collection keeps, and what reading and
  writing it means, shared by both generations of the collection classes.

  A collection maps lowercased class names to class configs, and, when
  metadata tracking is on, keeps per class the metadata of the last write and
  a most-recent-first history of the (value, metadata) pairs it displaced.
*/
module ConfigState {
  import opened Php
  import opened MiddlewareAware

  /** One displaced write: the `['value' => ..., 'metadata' => ...]` pair. */
  datatype HistoryEntry = HistoryEntry(value: Value, metadata: Value)

  /** The four fields a collection serialises, in the order it writes them. */
  datatype Snapshot = Snapshot(
    config: map<string, Value>,
    history: map<string, seq<HistoryEntry>>,
    metadata: map<string, Value>,
    trackMetadata: bool)

  /** The history recorded so far for `key`, or none. */
  function Past(h: map<string, seq<HistoryEntry>>, key: string): seq<HistoryEntry>
  {
    if key in h then h[key] else []
  }

  /** The empty collection a constructor starts from. */
  function Empty(trackMetadata: bool): (r: Snapshot)
    ensures r.config == map[] && r.metadata == map[] && r.history == map[]
    ensures r.trackMetadata == trackMetadata
  {
    Snapshot(map[], map[], map[], trackMetadata)
  }

  /**
    The metadata bookkeeping of a write to `key` (already lowercased): with
    tracking on, the displaced pair is pushed on the front of the history
    when the key held both a (non-null) value and (non-null) metadata, and
    the metadata is overwritten; with tracking off nothing changes.  The
    config itself is left to the caller.
  */
  function Track(s: Snapshot, key: string, meta: Value): (r: Snapshot)
    ensures r.config == s.config && r.trackMetadata == s.trackMetadata
    ensures !s.trackMetadata ==> r == s
    ensures s.trackMetadata ==> r.metadata == s.metadata[key := meta]
    ensures s.trackMetadata && IsSet(Lookup(s.metadata, key)) && IsSet(Lookup(s.config, key)) ==>
      r.history == s.history[key := [HistoryEntry(s.config[key], s.metadata[key])] + Past(s.history, key)]
    ensures !(IsSet(Lookup(s.metadata, key)) && IsSet(Lookup(s.config, key))) ==> r.history == s.history
  {
    if !s.trackMetadata then s
    else
      var h :=
        if IsSet(Lookup(s.metadata, key)) && IsSet(Lookup(s.config, key))
        then s.history[key := [HistoryEntry(s.config[key], s.metadata[key])] + Past(s.history, key)]
        else s.history;
      s.(history := h, metadata := s.metadata[key := meta])
  }

  /**
    A named write needs an array, or nothing, to write into: PHP turns an
    unset or null entry into an array, and does not write a named field into
    a scalar.
  */
  predicate NamedWritable(s: Snapshot, className: string)
  {
    var cur := Lookup(s.config, Lower(className));
    !IsSet(cur) || cur.value.Arr?
  }

  /** The entries a named write starts from: the class array, or none. */
  function FieldsOf(cur: Option<Value>): Entries
  {
    if cur.Some? && cur.value.Arr? then cur.value.entries else []
  }

  /**
    `set($class, $name, $data, $metadata)`: a write with a name changes that
    field of the class array, one without replaces the whole class config.
  */
  function Set(s: Snapshot, className: string, name: Option<string>, data: Value, meta: Value): Snapshot
    requires HasName(name) ==> NamedWritable(s, className)
  {
    var key := Lower(className);
    var t := Track(s, key, meta);
    if HasName(name) then
      t.(config := t.config[key := Arr(Put(FieldsOf(Lookup(t.config, key)), StrKey(name.value), data))])
    else
      t.(config := t.config[key := data])
  }

  /** `remove($class, $name)`: drops the field, or the whole class entry. */
  function Remove(s: Snapshot, className: string, name: Option<string>): Snapshot
  {
    var key := Lower(className);
    if HasName(name) then
      if key in s.config && s.config[key].Arr?
      then s.(config := s.config[key := Arr(Unset(s.config[key].entries, StrKey(name.value)))])
      else s
    else s.(config := s.config - {key})
  }

  /** `removeAll()` / `deleteAll()`: config, metadata and history are emptied. */
  function RemoveAll(s: Snapshot): (r: Snapshot)
    ensures r.config == map[] && r.metadata == map[] && r.history == map[]
    ensures r.trackMetadata == s.trackMetadata
  {
    s.(config := map[], metadata := map[], history := map[])
  }

  /** `getMetadata()`: empty unless tracking is on. */
  function MetadataView(s: Snapshot): (r: map<string, Value>)
    ensures !s.trackMetadata ==> r == map[]
    ensures s.trackMetadata ==> r == s.metadata
  {
    if s.trackMetadata then s.metadata else map[]
  }

  /** `getHistory()`: empty unless tracking is on. */
  function HistoryView(s: Snapshot): (r: map<string, seq<HistoryEntry>>)
    ensures !s.trackMetadata ==> r == map[]
    ensures s.trackMetadata ==> r == s.history
  {
    if s.trackMetadata then s.history else map[]
  }

  /** The terminal resolver of a lookup: hands back the stored config, whatever class it is asked for. */
  function Stored(v: Value): (r: string -> Value)
    ensures forall c :: r(c) == v
  {
    _ => v
  }

  /** The stored config of a class, null when there is none. */
  function RawClassConfig(s: Snapshot, className: string): Value
  {
    match Lookup(s.config, Lower(className))
    case Some(v) => v
    case None => Null
  }

  /**
    `getClassConfig($class, $includeMiddleware)`: null for a class without a
    (non-null) config, whose middleware never runs; the stored config for a
    raw read; otherwise the middleware chain ending in the stored config.
  */
  function ClassConfig(s: Snapshot, ms: seq<Middleware>, className: string, includeMiddleware: bool): (r: Value)
    ensures RawClassConfig(s, className).Null? ==> r.Null?
    ensures !includeMiddleware ==> r == RawClassConfig(s, className)
    ensures includeMiddleware && ms == [] ==> r == RawClassConfig(s, className)
  {
    var key := Lower(className);
    var raw := RawClassConfig(s, className);
    if raw.Null? then Null
    else if includeMiddleware then Chain(ms, Stored(raw))(key)
    else raw
  }

  /**
    The `$name` part of `get`: the whole class config without a name;
    with one, the field if it is set, else null (`isset` also answers false
    on anything that is not an array).
  */
  function Field(config: Value, name: Option<string>): (r: Value)
    ensures !HasName(name) ==> r == config
    ensures HasName(name) && !config.Arr? ==> r == Null
  {
    if !HasName(name) then config
    else if config.Arr? && IsSet(Get(config.entries, StrKey(name.value)))
    then Get(config.entries, StrKey(name.value)).value
    else Null
  }

  /**
    The test `exists` applies to the class config: false for null; with a
    name, whether the array has that key (`array_key_exists`, so a key
    holding null exists); true otherwise.
  */
  predicate Exists(config: Value, name: Option<string>)
  {
    if config.Null? then false
    else if HasName(name) then config.Arr? && HasKey(config.entries, StrKey(name.value))
    else true
  }

  /** Every class name the collection stores is lowercase. */
  predicate Canonical(s: Snapshot)
  {
    (forall k | k in s.config :: Lower(k) == k) &&
    (forall k | k in s.metadata :: Lower(k) == k) &&
    (forall k | k in s.history :: Lower(k) == k)
  }

  /* ----- Facts about the store ----- */

  /** Writes keep every stored class name lowercase. */
  lemma SetCanonical(s: Snapshot, className: string, name: Option<string>, data: Value, meta: Value)
    requires Canonical(s)
    requires HasName(name) ==> NamedWritable(s, className)
    ensures Canonical(Set(s, className, name, data, meta))
  {
    LowerIdempotent(className);
  }

  lemma RemoveCanonical(s: Snapshot, className: string, name: Option<string>)
    requires Canonical(s)
    ensures Canonical(Remove(s, className, name))
  {
  }

  /**
    A write is seen under every spelling of the class that lowercases alike:
    the whole config after an unnamed write, the field after a named one (a
    null field reads as null, so the read returns `data` in every case).
  */
  lemma SetThenRead(s: Snapshot, className: string, other: string, name: Option<string>, data: Value, meta: Value)
    requires HasName(name) ==> NamedWritable(s, className)
    requires Lower(other) == Lower(className)
    ensures !HasName(name) ==> RawClassConfig(Set(s, className, name, data, meta), other) == data
    ensures HasName(name) ==> Field(RawClassConfig(Set(s, className, name, data, meta), other), name) == data
    ensures HasName(name) ==> Exists(RawClassConfig(Set(s, className, name, data, meta), other), name)
  {
    if HasName(name) {
      var t := Track(s, Lower(className), meta);
      GetPutSame(FieldsOf(Lookup(t.config, Lower(className))), StrKey(name.value), data);
    }
  }

  /** A write leaves every class that lowercases differently alone. */
  lemma SetOtherClass(s: Snapshot, className: string, other: string, name: Option<string>, data: Value, meta: Value)
    requires HasName(name) ==> NamedWritable(s, className)
    requires Lower(other) != Lower(className)
    ensures RawClassConfig(Set(s, className, name, data, meta), other) == RawClassConfig(s, className := other)
  {
  }

  /**
    A named write changes no other field: every other name reads and exists
    as before, and a class that had no config ends up with the one field.
  */
  lemma SetOtherField(s: Snapshot, className: string, name: Option<string>, other: Option<string>, data: Value, meta: Value)
    requires HasName(name) && NamedWritable(s, className)
    requires HasName(other) && other.value != name.value
    ensures IsSet(Lookup(s.config, Lower(className))) ==>
      Field(RawClassConfig(Set(s, className, name, data, meta), className), other) == Field(RawClassConfig(s, className), other)
    ensures IsSet(Lookup(s.config, Lower(className))) ==>
      Exists(RawClassConfig(Set(s, className, name, data, meta), className), other) == Exists(RawClassConfig(s, className), other)
    ensures !IsSet(Lookup(s.config, Lower(className))) ==>
      RawClassConfig(Set(s, className, name, data, meta), className) == Arr([(StrKey(name.value), data)])
  {
    var key := Lower(className);
    var t := Track(s, key, meta);
    GetPutOther(FieldsOf(Lookup(t.config, key)), StrKey(name.value), data, StrKey(other.value));
  }

  /**
    History and metadata after a write: with tracking on, the displaced pair
    goes in front of the class history exactly when the class had both a
    value and metadata, and the metadata becomes the new one; with tracking
    off both views stay empty.
  */
  lemma SetHistory(s: Snapshot, className: string, name: Option<string>, data: Value, meta: Value)
    requires HasName(name) ==> NamedWritable(s, className)
    ensures var key := Lower(className);
      var r := Set(s, className, name, data, meta);
      && (s.trackMetadata ==> MetadataView(r)[key] == meta)
      && (s.trackMetadata && IsSet(Lookup(s.metadata, key)) && IsSet(Lookup(s.config, key)) ==>
           HistoryView(r)[key] == [HistoryEntry(s.config[key], s.metadata[key])] + Past(s.history, key))
      && (!(IsSet(Lookup(s.metadata, key)) && IsSet(Lookup(s.config, key))) ==> r.history == s.history)
      && (forall k | k != key :: Lookup(r.metadata, k) == Lookup(s.metadata, k))
      && (!s.trackMetadata ==> MetadataView(r) == map[] && HistoryView(r) == map[])
  {
  }

  /**
    `remove` touches config only: metadata and history survive it, the class
    reads as null afterwards (or, with a name, the field no longer exists),
    and other classes are unaffected.
  */
  lemma RemoveEffect(s: Snapshot, className: string, other: string, name: Option<string>)
    requires RawClassConfig(s, className).Arr? ==> DistinctKeys(RawClassConfig(s, className).entries)
    ensures Remove(s, className, name).metadata == s.metadata
    ensures Remove(s, className, name).history == s.history
    ensures !HasName(name) ==> RawClassConfig(Remove(s, className, name), className) == Null
    ensures HasName(name) ==> !Exists(RawClassConfig(Remove(s, className, name), className), name)
    ensures Lower(other) != Lower(className) ==>
      RawClassConfig(Remove(s, className, name), other) == RawClassConfig(s, className := other)
  {
    if HasName(name) {
      var key := Lower(className);
      if key in s.config && s.config[key].Arr? {
        UnsetRemoves(s.config[key].entries, StrKey(name.value));
      }
    }
  }

  /**
    `get` and `exists` part ways on a field that holds null: the field reads
    as null yet exists; on a class without config neither finds anything.
  */
  lemma NullFieldExists(config: Value, name: Option<string>)
    requires HasName(name) && config.Arr?
    requires Get(config.entries, StrKey(name.value)) == Some(Null)
    ensures Field(config, name) == Null
    ensures Exists(config, name)
  {
  }

  lemma MissingClassReadsNull(s: Snapshot, ms: seq<Middleware>, className: string, name: Option<string>, includeMiddleware: bool)
    requires Lower(className) !in s.config
    ensures Field(ClassConfig(s, ms, className, includeMiddleware), name) == Null
    ensures !Exists(ClassConfig(s, ms, className, includeMiddleware), name)
  {
  }
}
