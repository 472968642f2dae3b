/**
  What a delta collection (src/Collections/DeltaConfigCollection.php) answers
  for a class, as a function of its state: its own copy of the raw store, the
  set of classes altered since it was made, and its cache of
  middleware-applied configs.  Unaltered classes are answered by the parent.
*/
module DeltaOverlay {
  import opened Php
  import opened MiddlewareAware
  import opened ConfigState

  datatype Overlay = Overlay(store: Snapshot, altered: set<string>, cache: map<string, Value>)

  /** How a lookup is answered: with a value, or by asking the parent for the (lowercased) class. */
  datatype Plan = Answer(value: Value) | Delegate(key: string)

  /**
    `getClassConfig($class, $includeMiddleware)`: null for a class the
    overlay's own store lacks; the raw value without middleware; else the
    cached answer, the overlay's own chain for an altered class, or the
    parent for an unaltered one.
  */
  function Resolve(o: Overlay, ms: seq<Middleware>, className: string, includeMiddleware: bool): (r: Plan)
    ensures !IsSet(Lookup(o.store.config, Lower(className))) ==> r == Answer(Null)
    ensures IsSet(Lookup(o.store.config, Lower(className))) && !includeMiddleware ==>
      r == Answer(o.store.config[Lower(className)])
    ensures r.Delegate? ==> r.key == Lower(className) && r.key !in o.cache && r.key !in o.altered
  {
    var key := Lower(className);
    var raw := Lookup(o.store.config, key);
    if !IsSet(raw) then Answer(Null)
    else if !includeMiddleware then Answer(raw.value)
    else if key in o.cache then Answer(o.cache[key])
    else if key in o.altered then Answer(ClassConfig(o.store, ms, key, true))
    else Delegate(key)
  }

  /** The overlay after a lookup answered `v`: a middleware-applied answer for a stored class is cached. */
  function Fill(o: Overlay, className: string, includeMiddleware: bool, v: Value): Overlay
  {
    var key := Lower(className);
    if IsSet(Lookup(o.store.config, key)) && includeMiddleware
    then o.(cache := o.cache[key := v])
    else o
  }

  /** `alter`, corrected: the class is recorded and invalidated under its lowercased name. */
  function Alter(o: Overlay, className: string): (r: Overlay)
    ensures Lower(className) in r.altered && Lower(className) !in r.cache
  {
    o.(altered := o.altered + {Lower(className)}, cache := o.cache - {Lower(className)})
  }

  /** `alter` AS WRITTEN: the class is recorded and invalidated under the name as passed. */
  function AlterAsWritten(o: Overlay, className: string): Overlay
  {
    o.(altered := o.altered + {className}, cache := o.cache - {className})
  }

  function Set(o: Overlay, className: string, name: Option<string>, data: Value, meta: Value): Overlay
    requires HasName(name) ==> NamedWritable(o.store, className)
  {
    var a := Alter(o, className);
    a.(store := ConfigState.Set(a.store, className, name, data, meta))
  }

  function SetAsWritten(o: Overlay, className: string, name: Option<string>, data: Value, meta: Value): Overlay
    requires HasName(name) ==> NamedWritable(o.store, className)
  {
    var a := AlterAsWritten(o, className);
    a.(store := ConfigState.Set(a.store, className, name, data, meta))
  }

  function Remove(o: Overlay, className: string, name: Option<string>): Overlay
  {
    var a := Alter(o, className);
    a.(store := ConfigState.Remove(a.store, className, name))
  }

  function RemoveAsWritten(o: Overlay, className: string, name: Option<string>): Overlay
  {
    var a := AlterAsWritten(o, className);
    a.(store := ConfigState.Remove(a.store, className, name))
  }

  /** `removeAll`: the store and the cache are emptied, the altered set is kept. */
  function RemoveAll(o: Overlay): (r: Overlay)
    ensures r.altered == o.altered && r.cache == map[]
    ensures r.store == ConfigState.RemoveAll(o.store)
  {
    o.(store := ConfigState.RemoveAll(o.store), cache := map[])
  }

  /* ----- Facts about the overlay ----- */

  /** A class the overlay's store lacks is null, whatever the parent holds. */
  lemma MissingIsNull(o: Overlay, ms: seq<Middleware>, className: string, includeMiddleware: bool)
    requires Lower(className) !in o.store.config
    ensures Resolve(o, ms, className, includeMiddleware) == Answer(Null)
  {
  }

  /** An unaltered, uncached stored class with middleware goes to the parent. */
  lemma UnalteredDelegates(o: Overlay, ms: seq<Middleware>, className: string)
    requires IsSet(Lookup(o.store.config, Lower(className)))
    requires Lower(className) !in o.cache && Lower(className) !in o.altered
    ensures Resolve(o, ms, className, true) == Delegate(Lower(className))
  {
  }

  /** After a lookup, the same lookup is answered from the cache with the same value. */
  lemma FilledCacheAnswers(o: Overlay, ms: seq<Middleware>, className: string, v: Value)
    requires IsSet(Lookup(o.store.config, Lower(className)))
    ensures Resolve(Fill(o, className, true, v), ms, className, true) == Answer(v)
  {
  }

  /**
    Corrected `set`: a later lookup of the class, under any spelling, is
    answered by the overlay's own chain over the value just written, never
    by a stale cache entry or by the parent.
  */
  lemma SetThenResolve(o: Overlay, ms: seq<Middleware>, className: string, other: string,
      name: Option<string>, data: Value, meta: Value)
    requires HasName(name) ==> NamedWritable(o.store, className)
    requires Lower(other) == Lower(className)
    ensures var r := Set(o, className, name, data, meta);
      Resolve(r, ms, other, true) == Answer(ClassConfig(r.store, ms, other, true))
  {
    LowerIdempotent(className);
    SetThenRead(o.store, className, other, name, data, meta);
  }

  /** Corrected `remove` of a whole class: the class then reads as null. */
  lemma RemoveThenResolve(o: Overlay, ms: seq<Middleware>, className: string, includeMiddleware: bool)
    ensures Resolve(Remove(o, className, None), ms, className, includeMiddleware) == Answer(Null)
  {
  }

  /** Writing one class leaves the plan for a differently spelled class alone. */
  lemma SetOtherClassPlan(o: Overlay, ms: seq<Middleware>, className: string, other: string,
      name: Option<string>, data: Value, meta: Value)
    requires HasName(name) ==> NamedWritable(o.store, className)
    requires Lower(other) != Lower(className)
    requires Lower(other) !in o.altered
    ensures Resolve(Set(o, className, name, data, meta), ms, other, true) == Resolve(o, ms, other, true)
  {
    SetOtherClass(o.store, className, other, name, data, meta);
  }

  /** After `removeAll` every class is null, although the altered set survives. */
  lemma RemoveAllResolvesNull(o: Overlay, ms: seq<Middleware>, className: string, includeMiddleware: bool)
    ensures Resolve(RemoveAll(o), ms, className, includeMiddleware) == Answer(Null)
    ensures RemoveAll(o).altered == o.altered
  {
  }

  /**
    AS WRITTEN, a mixed-case `set` leaves the lowercased cache entry in
    place: setting "Foo" on an overlay that cached "foo" keeps answering the
    cached value, not the one written.
  */
  lemma StaleAfterMixedCaseSet(o: Overlay, data: Value)
    requires "foo" in o.cache
    requires !data.Null? && data != o.cache["foo"]
    ensures var r := SetAsWritten(o, "Foo", None, data, Arr([]));
      && Resolve(r, [], "foo", true) == Answer(o.cache["foo"])
      && ClassConfig(r.store, [], "foo", true) == data
      && Resolve(r, [], "foo", true) != Answer(ClassConfig(r.store, [], "foo", true))
  {
    assert Lower("Foo") == "foo" by { assert Lower("Foo")[0] == 'f'; }
    assert Lower("foo") == "foo" by { assert Lower("foo")[0] == 'f'; }
    SetThenRead(o.store, "Foo", "foo", None, data, Arr([]));
  }

  /**
    AS WRITTEN, a mixed-case `set` of an uncached, unaltered class does not
    mark it altered: the lookup still goes to the parent.
  */
  lemma UnalteredAfterMixedCaseSet(o: Overlay, data: Value)
    requires "foo" !in o.cache && "foo" !in o.altered
    requires !data.Null?
    ensures Resolve(SetAsWritten(o, "Foo", None, data, Arr([])), [], "foo", true) == Delegate("foo")
  {
    assert Lower("Foo") == "foo" by { assert Lower("Foo")[0] == 'f'; }
    assert Lower("foo") == "foo" by { assert Lower("foo")[0] == 'f'; }
    SetThenRead(o.store, "Foo", "foo", None, data, Arr([]));
  }
}
